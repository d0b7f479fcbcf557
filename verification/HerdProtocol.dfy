/**
 * Many documents racing through lookup, lock, second lookup, discovery and learning, under every interleaving.
 * Each step is one atomic action of one run, or of the environment.
 */
module HerdProtocol {
  import opened Common
  import opened Templates
  import TS = TemplateStore
  import TemplateSynthesis
  import Router
  import LL = LearnLock

  /**
   * What the runs take from outside: text functions, theme detection, which tenants may use the VLM, and the
   * key a document locks on. The results hold for every key function; `SignatureKey` is the router's.
   */
  datatype Config = Config(
    engine: Engine, themeOf: Document -> Option<string>, vlmEnabled: string -> bool,
    keyOf: (string, Document) -> string)

  function SignatureKey(hash: string -> string, themeOf: Document -> Option<string>): (string, Document) -> string {
    (tenant, doc) => LL.Key(tenant, LL.Signature(hash, doc, themeOf(doc)))
  }

  datatype Result =
    | TemplateHit(template: Template, extraction: Extraction)
    | DiscoveredAs(saved: bool)
    | Unknown
    | Crashed

  datatype Phase =
    | Started                                       // before the first lookup
    | Missed                                        // first lookup found nothing
    | Waiting(lock: LL.LockId)                      // holds a reference to its key's lock
    | Locked(lock: LL.LockId)                       // inside the lock, before the second lookup
    | Discovering(lock: LL.LockId)                  // inside the lock, second lookup found nothing
    | Leaving(lock: LL.LockId, result: Result)      // inside the lock, result decided
    | Finished(result: Result)

  datatype Run = Run(tenant: string, doc: Document, phase: Phase)

  type RunId = nat

  /** The history that the bounds are about. */
  datatype Event =
    | Save(tenant: string, doc: Document, key: string)
    | Quarantine(tenant: string, key: string)

  datatype World = World(
    store: TS.Snapshot, table: LL.LockTable, held: map<LL.LockId, RunId>, runs: map<RunId, Run>, log: seq<Event>)

  datatype Step =
    | Arrive(id: RunId, tenant: string, doc: Document)
    | FirstLookup(id: RunId)
    | GetLock(id: RunId)
    | Acquire(id: RunId)
    | SecondLookup(id: RunId)
    | DiscoveryAbstains(id: RunId)
    | Learn(id: RunId, d: TemplateSynthesis.Discovered, vlm: TemplateSynthesis.VlmResult)
    | DiscoveryRaises(id: RunId)
    | Release(id: RunId)
    | QuarantineStep(tenant: string, key: string)

  predicate Initial(w: World) {
    w.table == LL.LockTable(map[], 0) && w.held == map[] && w.runs == map[] && w.log == []
  }

  /** One look at the store for a document; a document without a theme never looks. */
  function Lookup(c: Config, s: TS.Snapshot, tenant: string, doc: Document): Router.Attempt {
    match c.themeOf(doc)
    case None => Router.Miss
    case Some(theme) => Router.Attempted(c.engine, doc, TS.InTheme(s, tenant, theme))
  }

  function At(w: World, id: RunId, p: Phase): World
    requires id in w.runs
  {
    w.(runs := w.runs[id := w.runs[id].(phase := p)])
  }

  predicate Enabled(c: Config, w: World, st: Step) {
    match st
    case Arrive(id, _, _) => id !in w.runs
    case QuarantineStep(_, _) => true
    case _ =>
      st.id in w.runs &&
      var p := w.runs[st.id].phase;
      match st
      case FirstLookup(_) => p.Started?
      case GetLock(_) => p.Missed?
      case Acquire(_) => p.Waiting? && p.lock !in w.held
      case SecondLookup(_) => p.Locked?
      case Release(_) => p.Leaving?
      case _ => p.Discovering?
  }

  function Next(c: Config, w: World, st: Step): World
    requires Enabled(c, w, st)
  {
    match st
    case Arrive(id, tenant, doc) => w.(runs := w.runs[id := Run(tenant, doc, Started)])
    case QuarantineStep(tenant, key) =>
      w.(store := TS.Quarantined(w.store, tenant, key), log := w.log + [Quarantine(tenant, key)])
    case FirstLookup(id) =>
      var r := w.runs[id];
      (match Lookup(c, w.store, r.tenant, r.doc)
       case Hit(t, x) => At(w, id, Finished(TemplateHit(t, x)))
       case Crash => At(w, id, Finished(Crashed))
       case Miss => At(w, id, if c.vlmEnabled(r.tenant) then Missed else Finished(Unknown)))
    case GetLock(id) =>
      var r := w.runs[id];
      var key := c.keyOf(r.tenant, r.doc);
      var table := LL.WithLock(w.table, key);
      At(w, id, Waiting(table.locks[key])).(table := table)
    case Acquire(id) =>
      var lock := w.runs[id].phase.lock;
      At(w, id, Locked(lock)).(held := w.held[lock := id])
    case SecondLookup(id) =>
      var r := w.runs[id];
      (match Lookup(c, w.store, r.tenant, r.doc)
       case Hit(t, x) => At(w, id, Leaving(r.phase.lock, TemplateHit(t, x)))
       case Crash => At(w, id, Leaving(r.phase.lock, Crashed))
       case Miss => At(w, id, Discovering(r.phase.lock)))
    case DiscoveryAbstains(id) => At(w, id, Leaving(w.runs[id].phase.lock, Unknown))
    case DiscoveryRaises(id) => At(w, id, Leaving(w.runs[id].phase.lock, Crashed))
    case Learn(id, d, vlm) =>
      var r := w.runs[id];
      (match LearnedFrom(c, r.doc, d, vlm)
       case None => At(w, id, Leaving(r.phase.lock, DiscoveredAs(false)))
       case Some(t) =>
         At(w, id, Leaving(r.phase.lock, DiscoveredAs(true)))
         .(store := TS.Saved(w.store, r.tenant, t), log := w.log + [Save(r.tenant, r.doc, t.fingerprintKey)]))
    case Release(id) =>
      var p := w.runs[id].phase;
      At(w, id, Finished(p.result)).(held := w.held - {p.lock})
  }

  /** Synthesis is best effort: without a theme, or when it raises, nothing is learned. */
  function LearnedFrom(c: Config, doc: Document, d: TemplateSynthesis.Discovered, vlm: TemplateSynthesis.VlmResult)
    : Option<Template>
  {
    match c.themeOf(doc)
    case None => None
    case Some(theme) =>
      match TemplateSynthesis.Synthesised(c.engine, theme, d, vlm, doc)
      case Raised => None
      case Returned(r) => r
  }

  /** The world after taking `steps` one by one, if each is enabled when its turn comes. */
  function After(c: Config, start: World, steps: seq<Step>): Option<World> {
    if steps == [] then Some(start)
    else match After(c, start, Init(steps))
      case Some(mid) => if Enabled(c, mid, Last(steps)) then Some(Next(c, mid, Last(steps))) else None
      case None => None
  }

  // ---- The locks ----

  predicate InLock(p: Phase) {
    p.Locked? || p.Discovering? || p.Leaving?
  }

  predicate HasLock(p: Phase) {
    p.Waiting? || InLock(p)
  }

  /** Every run refers to its key's one lock, and whoever is inside it is its recorded holder. */
  ghost predicate LockInv(c: Config, w: World) {
    && (forall k :: k in w.table.locks ==> w.table.locks[k] < w.table.next)
    && (forall id :: id in w.runs && HasLock(w.runs[id].phase) ==>
          var key := c.keyOf(w.runs[id].tenant, w.runs[id].doc);
          key in w.table.locks && w.table.locks[key] == w.runs[id].phase.lock)
    && (forall id :: id in w.runs && InLock(w.runs[id].phase) ==>
          w.runs[id].phase.lock in w.held && w.held[w.runs[id].phase.lock] == id)
  }

  /** A run that keeps its lock, or gives up its claim to one, changes nothing for the others. */
  lemma PhaseChanges(c: Config, w: World, id: RunId, p: Phase)
    requires LockInv(c, w) && id in w.runs
    requires HasLock(p) ==> HasLock(w.runs[id].phase) && p.lock == w.runs[id].phase.lock
    requires InLock(p) ==> InLock(w.runs[id].phase)
    ensures LockInv(c, At(w, id, p))
  {
  }

  lemma LockTaken(c: Config, w: World, id: RunId)
    requires Enabled(c, w, GetLock(id)) && LockInv(c, w)
    ensures LockInv(c, Next(c, w, GetLock(id)))
  {
    hide Lookup, LearnedFrom;
  }

  lemma LockEntered(c: Config, w: World, id: RunId)
    requires Enabled(c, w, Acquire(id)) && LockInv(c, w)
    ensures LockInv(c, Next(c, w, Acquire(id)))
  {
    hide Lookup, LearnedFrom;
  }

  lemma LockLeft(c: Config, w: World, id: RunId)
    requires Enabled(c, w, Release(id)) && LockInv(c, w)
    ensures LockInv(c, Next(c, w, Release(id)))
  {
    hide Lookup, LearnedFrom;
  }

  /** Arrivals, quarantines, and the steps inside or outside the lock that neither take nor leave it. */
  lemma LocksUntouched(c: Config, w: World, st: Step)
    requires Enabled(c, w, st) && LockInv(c, w) && !st.GetLock? && !st.Acquire? && !st.Release?
    ensures LockInv(c, Next(c, w, st))
  {
    hide Lookup, LearnedFrom;
    var after := Next(c, w, st);
    if st.Arrive? || st.QuarantineStep? {
    } else {
      hide LockInv;
      PhaseChanges(c, w, st.id, after.runs[st.id].phase);
      SameLocks(c, At(w, st.id, after.runs[st.id].phase), after);
    }
  }

  lemma LockInvStep(c: Config, w: World, st: Step)
    requires Enabled(c, w, st) && LockInv(c, w)
    ensures LockInv(c, Next(c, w, st))
  {
    hide Enabled, Next, LockInv;
    match st
    case GetLock(id) => LockTaken(c, w, id);
    case Acquire(id) => LockEntered(c, w, id);
    case Release(id) => LockLeft(c, w, id);
    case _ => LocksUntouched(c, w, st);
  }

  lemma SameLocks(c: Config, w: World, w': World)
    requires LockInv(c, w) && w'.table == w.table && w'.held == w.held && w'.runs == w.runs
    ensures LockInv(c, w')
  {
  }

  // ---- The history ----

  predicate OwnSave(ev: Event, tenant: string, doc: Document) {
    ev.Save? && ev.tenant == tenant && ev.doc == doc
  }

  /** The tenant's template under this key is quarantined or, by the save of another document, overwritten. */
  predicate Strikes(ev: Event, tenant: string, key: string) {
    ev.tenant == tenant && ev.key == key
  }

  /** The key of the document's learned template, while that template is neither quarantined nor overwritten. */
  function FreshKey(log: seq<Event>, tenant: string, doc: Document): Option<string> {
    if log == [] then None
    else if OwnSave(Last(log), tenant, doc) then Some(Last(log).key)
    else
      var prior := FreshKey(Init(log), tenant, doc);
      if prior.Some? && Strikes(Last(log), tenant, prior.value) then None else prior
  }

  /** The document's template was learned and nothing has disturbed it since. */
  predicate Fresh(log: seq<Event>, tenant: string, doc: Document) {
    FreshKey(log, tenant, doc).Some?
  }

  /** The event takes the document's learned template away. */
  predicate Disturbs(log: seq<Event>, ev: Event, tenant: string, doc: Document) {
    && !OwnSave(ev, tenant, doc)
    && Fresh(log, tenant, doc) && Strikes(ev, tenant, FreshKey(log, tenant, doc).value)
  }

  function Saves(log: seq<Event>, tenant: string, doc: Document): nat {
    if log == [] then 0
    else Saves(Init(log), tenant, doc) + if OwnSave(Last(log), tenant, doc) then 1 else 0
  }

  function Disturbances(log: seq<Event>, tenant: string, doc: Document): nat {
    if log == [] then 0
    else Disturbances(Init(log), tenant, doc) + if Disturbs(Init(log), Last(log), tenant, doc) then 1 else 0
  }

  /** The tenant's entry under the key is visible for the document's theme and extracts cleanly from the document. */
  ghost predicate Stored(c: Config, s: TS.Snapshot, tenant: string, doc: Document, key: string) {
    && c.themeOf(doc).Some?
    && exists i :: 0 <= i < |s.entries| && Serves(c, s, s.entries[i], tenant, doc, key)
  }

  predicate Serves(c: Config, s: TS.Snapshot, en: TS.Entry, tenant: string, doc: Document, key: string)
    requires c.themeOf(doc).Some?
  {
    && TS.SameKey(en, tenant, key) && TS.Visible(s, en, tenant, c.themeOf(doc).value)
    && Clean(Extracted(c.engine, en.template, doc))
  }

  ghost predicate HerdInv(c: Config, w: World, tenant: string, doc: Document) {
    && LockInv(c, w)
    && (Fresh(w.log, tenant, doc) ==> Stored(c, w.store, tenant, doc, FreshKey(w.log, tenant, doc).value))
    && (forall id :: id in w.runs && w.runs[id] == Run(tenant, doc, w.runs[id].phase) ==>
          w.runs[id].phase.Discovering? ==> !Fresh(w.log, tenant, doc))
    && Saves(w.log, tenant, doc) == Disturbances(w.log, tenant, doc) + if Fresh(w.log, tenant, doc) then 1 else 0
  }

  /** A document whose template is stored does not miss, whatever else is visible. */
  lemma StoredIsFound(c: Config, s: TS.Snapshot, tenant: string, doc: Document, key: string)
    requires Stored(c, s, tenant, doc, key)
    ensures !Lookup(c, s, tenant, doc).Miss?
  {
    var theme := c.themeOf(doc).value;
    var i :| 0 <= i < |s.entries| && Serves(c, s, s.entries[i], tenant, doc, key);
    var en := s.entries[i];
    assert en in s.entries;
    TS.InThemeMembers(s, s.entries, tenant, theme);
    assert en.template in TS.InTheme(s, tenant, theme);
    Router.AttemptMeaning(c.engine, doc, TS.InTheme(s, tenant, theme));
  }

  /** Quarantining anything else leaves it stored. */
  lemma StoredAfterQuarantine(c: Config, s: TS.Snapshot, actor: string, other: string,
                              tenant: string, doc: Document, key: string)
    requires Stored(c, s, tenant, doc, key) && !(actor == tenant && other == key)
    ensures Stored(c, TS.Quarantined(s, actor, other), tenant, doc, key)
  {
    var after := TS.Quarantined(s, actor, other);
    var i :| 0 <= i < |s.entries| && Serves(c, s, s.entries[i], tenant, doc, key);
    assert Serves(c, after, after.entries[i], tenant, doc, key);
  }

  /** So does saving anything that does not overwrite it, for whichever tenant. */
  lemma StoredAfterSave(c: Config, s: TS.Snapshot, actor: string, t: Template,
                        tenant: string, doc: Document, key: string)
    requires Stored(c, s, tenant, doc, key) && !(actor == tenant && t.fingerprintKey == key)
    ensures Stored(c, TS.Saved(s, actor, t), tenant, doc, key)
  {
    hide TS.IndexOf, Extracted;
    var after := TS.Saved(s, actor, t);
    var i :| 0 <= i < |s.entries| && Serves(c, s, s.entries[i], tenant, doc, key);
    assert i != TS.IndexOf(s.entries, actor, t.fingerprintKey);
    assert after.entries[i] == s.entries[i];
    assert Serves(c, after, after.entries[i], tenant, doc, key);
  }

  /** And a learned template is stored by its save. */
  lemma StoredByLearning(c: Config, s: TS.Snapshot, tenant: string, doc: Document,
                         d: TemplateSynthesis.Discovered, vlm: TemplateSynthesis.VlmResult)
    requires LearnedFrom(c, doc, d, vlm).Some?
    ensures var t := LearnedFrom(c, doc, d, vlm).value;
            Stored(c, TS.Saved(s, tenant, t), tenant, doc, t.fingerprintKey)
  {
    var theme, t := c.themeOf(doc).value, LearnedFrom(c, doc, d, vlm).value;
    TemplateSynthesis.SynthesisIsFaithful(c.engine, theme, d, vlm, doc);
    hide TS.IndexOf, Extracted, TemplateSynthesis.Synthesised;
    var after, i := TS.Saved(s, tenant, t), TS.IndexOf(s.entries, tenant, t.fingerprintKey);
    var en := after.entries[i];
    assert en.template == t.(version := en.template.version);
    VersionIrrelevant(c.engine, t, en.template.version, doc);
    assert Serves(c, after, en, tenant, doc, t.fingerprintKey);
  }

  /** A template's version plays no part in extraction. */
  lemma VersionIrrelevant(e: Engine, t: Template, v: nat, doc: Document)
    ensures Extracted(e, t.(version := v), doc) == Extracted(e, t, doc)
  {
  }

  /** The sequential core: a lookup right after a document's template is saved does not miss. */
  lemma LearnedIsFound(c: Config, s: TS.Snapshot, tenant: string, doc: Document,
                       d: TemplateSynthesis.Discovered, vlm: TemplateSynthesis.VlmResult)
    requires LearnedFrom(c, doc, d, vlm).Some?
    ensures !Lookup(c, TS.Saved(s, tenant, LearnedFrom(c, doc, d, vlm).value), tenant, doc).Miss?
  {
    var t := LearnedFrom(c, doc, d, vlm).value;
    StoredByLearning(c, s, tenant, doc, d, vlm);
    StoredIsFound(c, TS.Saved(s, tenant, t), tenant, doc, t.fingerprintKey);
  }

  /** While one run of a document is discovering, no other run of it is. */
  lemma OneDiscoverer(c: Config, w: World, a: RunId, b: RunId)
    requires LockInv(c, w) && a in w.runs && b in w.runs
    requires InLock(w.runs[a].phase) && InLock(w.runs[b].phase)
    requires c.keyOf(w.runs[a].tenant, w.runs[a].doc) == c.keyOf(w.runs[b].tenant, w.runs[b].doc)
    ensures a == b
  {
  }

  lemma LogStep(log: seq<Event>, ev: Event, tenant: string, doc: Document)
    ensures Saves(log + [ev], tenant, doc) == Saves(log, tenant, doc) + if OwnSave(ev, tenant, doc) then 1 else 0
    ensures Disturbances(log + [ev], tenant, doc)
         == Disturbances(log, tenant, doc) + if Disturbs(log, ev, tenant, doc) then 1 else 0
    ensures FreshKey(log + [ev], tenant, doc)
         == if OwnSave(ev, tenant, doc) then Some(ev.key)
            else if Disturbs(log, ev, tenant, doc) then None
            else FreshKey(log, tenant, doc)
  {
    assert Init(log + [ev]) == log;
  }

  lemma HerdInvQuarantine(c: Config, w: World, actor: string, key: string, tenant: string, doc: Document)
    requires HerdInv(c, w, tenant, doc) && LockInv(c, Next(c, w, QuarantineStep(actor, key)))
    ensures HerdInv(c, Next(c, w, QuarantineStep(actor, key)), tenant, doc)
  {
    var ev := Quarantine(actor, key);
    LogStep(w.log, ev, tenant, doc);
    hide LockInv, Stored, Saves, Disturbances, FreshKey;
    if Fresh(w.log, tenant, doc) && !Disturbs(w.log, ev, tenant, doc) {
      StoredAfterQuarantine(c, w.store, actor, key, tenant, doc, FreshKey(w.log, tenant, doc).value);
    }
  }

  /** A second lookup of a document whose template is fresh does not lead to discovery. */
  lemma HerdInvLookup(c: Config, w: World, id: RunId, tenant: string, doc: Document)
    requires Enabled(c, w, SecondLookup(id)) && HerdInv(c, w, tenant, doc)
    requires LockInv(c, Next(c, w, SecondLookup(id)))
    ensures HerdInv(c, Next(c, w, SecondLookup(id)), tenant, doc)
  {
    if Fresh(w.log, tenant, doc) {
      StoredIsFound(c, w.store, tenant, doc, FreshKey(w.log, tenant, doc).value);
    }
    hide LockInv, Lookup, Stored, Saves, Disturbances, FreshKey, Fresh;
  }

  lemma HerdInvOther(c: Config, w: World, st: Step, tenant: string, doc: Document)
    requires Enabled(c, w, st) && HerdInv(c, w, tenant, doc) && LockInv(c, Next(c, w, st))
    requires !st.QuarantineStep? && !st.Learn? && !st.SecondLookup?
    ensures HerdInv(c, Next(c, w, st), tenant, doc)
  {
    hide LockInv, Lookup, Stored, Saves, Disturbances, FreshKey;
  }

  lemma HerdInvStep(c: Config, w: World, st: Step, tenant: string, doc: Document)
    requires Enabled(c, w, st) && HerdInv(c, w, tenant, doc)
    ensures HerdInv(c, Next(c, w, st), tenant, doc)
  {
    assert LockInv(c, w);
    LockInvStep(c, w, st);
    hide LockInv, HerdInv, Next, Enabled;
    match st
    case QuarantineStep(actor, key) => HerdInvQuarantine(c, w, actor, key, tenant, doc);
    case Learn(id, d, vlm) => HerdInvLearn(c, w, id, d, vlm, tenant, doc);
    case SecondLookup(id) => HerdInvLookup(c, w, id, tenant, doc);
    case _ => HerdInvOther(c, w, st, tenant, doc);
  }

  lemma HerdInvLearn(c: Config, w: World, id: RunId, d: TemplateSynthesis.Discovered,
                     vlm: TemplateSynthesis.VlmResult, tenant: string, doc: Document)
    requires Enabled(c, w, Learn(id, d, vlm)) && HerdInv(c, w, tenant, doc)
    requires LockInv(c, Next(c, w, Learn(id, d, vlm)))
    ensures HerdInv(c, Next(c, w, Learn(id, d, vlm)), tenant, doc)
  {
    hide Lookup, LearnedFrom, Stored, Saves, Disturbances, FreshKey;
    var r := w.runs[id];
    var learned := LearnedFrom(c, r.doc, d, vlm);
    if learned.Some? {
      var t := learned.value;
      var ev := Save(r.tenant, r.doc, t.fingerprintKey);
      LogStep(w.log, ev, tenant, doc);
      if OwnSave(ev, tenant, doc) {
        StoredByLearning(c, w.store, tenant, doc, d, vlm);
      } else if Fresh(w.log, tenant, doc) && !Disturbs(w.log, ev, tenant, doc) {
        StoredAfterSave(c, w.store, r.tenant, t, tenant, doc, FreshKey(w.log, tenant, doc).value);
      }
    }
  }

  lemma {:induction false} HerdInvReached(
    c: Config, start: World, steps: seq<Step>, w: World, tenant: string, doc: Document)
    requires Initial(start) && After(c, start, steps) == Some(w)
    ensures HerdInv(c, w, tenant, doc)
  {
    if steps != [] {
      var mid := After(c, start, Init(steps)).value;
      HerdInvReached(c, start, Init(steps), mid, tenant, doc);
      HerdInvStep(c, mid, Last(steps), tenant, doc);
    }
  }

  // ---- What a lookup answers ----

  /** The template is one the tenant may use for documents of this theme: its own or everyone's, not quarantined. */
  ghost predicate Usable(s: TS.Snapshot, tenant: string, theme: string, t: Template) {
    && t.theme == theme && (tenant, t.fingerprintKey) !in s.quarantined
    && exists en :: en in s.entries && en.template == t && (en.tenant == tenant || en.tenant == "*")
  }

  /** The extraction is clean: nothing abstained, and some field or table came out. */
  predicate CleanFrom(c: Config, t: Template, doc: Document, x: Extraction) {
    Extracted(c.engine, t, doc) == Returned(x) && x.abstentions == [] && (x.fields != map[] || x.tables != [])
  }

  /** The hit is one of the usable templates, extracts cleanly, and none that does extracts more. */
  ghost predicate BestHit(c: Config, s: TS.Snapshot, tenant: string, doc: Document, t: Template, x: Extraction) {
    && c.themeOf(doc).Some? && Usable(s, tenant, c.themeOf(doc).value, t) && CleanFrom(c, t, doc, x)
    && forall t', x' :: Usable(s, tenant, c.themeOf(doc).value, t') && CleanFrom(c, t', doc, x') ==>
         |x'.fields| + |x'.tables| <= |x.fields| + |x.tables|
  }

  ghost predicate SomeRaises(c: Config, s: TS.Snapshot, tenant: string, doc: Document) {
    && c.themeOf(doc).Some?
    && exists t :: Usable(s, tenant, c.themeOf(doc).value, t) && Extracted(c.engine, t, doc).Raised?
  }

  ghost predicate SomeExtracts(c: Config, s: TS.Snapshot, tenant: string, doc: Document) {
    && c.themeOf(doc).Some?
    && exists t, x :: Usable(s, tenant, c.themeOf(doc).value, t) && CleanFrom(c, t, doc, x)
  }

  lemma UsableInTheme(s: TS.Snapshot, tenant: string, theme: string, t: Template)
    ensures Usable(s, tenant, theme, t) <==> t in TS.InTheme(s, tenant, theme)
  {
    TS.InThemeMembers(s, s.entries, tenant, theme);
  }

  lemma CleanMeans(c: Config, t: Template, doc: Document, x: Extraction)
    ensures CleanFrom(c, t, doc, x) <==> Extracted(c.engine, t, doc) == Returned(x) && Clean(Returned(x))
  {
  }

  lemma LookupMeaning(c: Config, s: TS.Snapshot, tenant: string, doc: Document)
    ensures Lookup(c, s, tenant, doc).Crash? <==> SomeRaises(c, s, tenant, doc)
    ensures Lookup(c, s, tenant, doc).Miss?
            <==> !SomeRaises(c, s, tenant, doc) && !SomeExtracts(c, s, tenant, doc)
    ensures match Lookup(c, s, tenant, doc)
            case Hit(t, x) => BestHit(c, s, tenant, doc, t, x)
            case _ => true
  {
    if c.themeOf(doc).Some? {
      var theme := c.themeOf(doc).value;
      Router.AttemptMeaning(c.engine, doc, TS.InTheme(s, tenant, theme));
      forall t ensures Usable(s, tenant, theme, t) <==> t in TS.InTheme(s, tenant, theme) {
        UsableInTheme(s, tenant, theme, t);
      }
      hide Usable, TS.InTheme, Extracted;
      forall t, x
        ensures CleanFrom(c, t, doc, x) <==> Extracted(c.engine, t, doc) == Returned(x) && Clean(Returned(x))
      {
        CleanMeans(c, t, doc, x);
      }
      if SomeExtracts(c, s, tenant, doc) {
        var t, x :| Usable(s, tenant, theme, t) && CleanFrom(c, t, doc, x);
        assert Clean(Extracted(c.engine, t, doc));
      }
      if t :| t in TS.InTheme(s, tenant, theme) && Clean(Extracted(c.engine, t, doc)) {
        assert CleanFrom(c, t, doc, Extracted(c.engine, t, doc).value);
      }
    }
  }

  /**
   * What the first lookup does to a run: an exception ends it; otherwise a usable template that extracts cleanly
   * ends it with the best such hit, before any lock; and without one it goes on only if the tenant may use the VLM.
   */
  lemma FirstLookupAnswers(c: Config, w: World, id: RunId)
    requires Enabled(c, w, FirstLookup(id))
    ensures var r, p := w.runs[id], Next(c, w, FirstLookup(id)).runs[id].phase;
      && (p == Finished(Crashed) <==> SomeRaises(c, w.store, r.tenant, r.doc))
      && ((p.Finished? && p.result.TemplateHit?)
          <==> !SomeRaises(c, w.store, r.tenant, r.doc) && SomeExtracts(c, w.store, r.tenant, r.doc))
      && (p.Finished? && p.result.TemplateHit? ==>
            BestHit(c, w.store, r.tenant, r.doc, p.result.template, p.result.extraction))
      && (!SomeRaises(c, w.store, r.tenant, r.doc) && !SomeExtracts(c, w.store, r.tenant, r.doc) ==>
            p == if c.vlmEnabled(r.tenant) then Missed else Finished(Unknown))
  {
    LookupMeaning(c, w.store, w.runs[id].tenant, w.runs[id].doc);
    hide Lookup, SomeRaises, SomeExtracts, BestHit;
  }

  /** What the second lookup, inside the lock, decides: the same, except that without a hit the run discovers. */
  lemma SecondLookupAnswers(c: Config, w: World, id: RunId)
    requires Enabled(c, w, SecondLookup(id))
    ensures var r, p := w.runs[id], Next(c, w, SecondLookup(id)).runs[id].phase;
      && InLock(p) && p.lock == r.phase.lock
      && (p.Leaving? && p.result == Crashed <==> SomeRaises(c, w.store, r.tenant, r.doc))
      && ((p.Leaving? && p.result.TemplateHit?)
          <==> !SomeRaises(c, w.store, r.tenant, r.doc) && SomeExtracts(c, w.store, r.tenant, r.doc))
      && (p.Leaving? && p.result.TemplateHit? ==>
            BestHit(c, w.store, r.tenant, r.doc, p.result.template, p.result.extraction))
      && (p.Discovering?
          <==> !SomeRaises(c, w.store, r.tenant, r.doc) && !SomeExtracts(c, w.store, r.tenant, r.doc))
  {
    LookupMeaning(c, w.store, w.runs[id].tenant, w.runs[id].doc);
    hide Lookup, SomeRaises, SomeExtracts, BestHit;
  }

  /** Synthesis, under the document's theme, returns this template. */
  predicate Synthesises(c: Config, doc: Document, d: TemplateSynthesis.Discovered, vlm: TemplateSynthesis.VlmResult,
                        t: Template) {
    && c.themeOf(doc).Some?
    && TemplateSynthesis.Synthesised(c.engine, c.themeOf(doc).value, d, vlm, doc) == Returned(Some(t))
  }

  lemma SynthesisedIsLearned(c: Config, doc: Document, st: Step)
    ensures st.Learn? ==>
              && (forall t :: Synthesises(c, doc, st.d, st.vlm, t) <==> LearnedFrom(c, doc, st.d, st.vlm) == Some(t))
              && (LearnedFrom(c, doc, st.d, st.vlm).Some? ==>
                    Synthesises(c, doc, st.d, st.vlm, LearnedFrom(c, doc, st.d, st.vlm).value))
  {
  }

  /** What discovery decides: unknown, an exception, or a result that is marked saved exactly when it was learned. */
  lemma DiscoveryAnswers(c: Config, w: World, st: Step)
    requires Enabled(c, w, st) && (st.DiscoveryAbstains? || st.DiscoveryRaises? || st.Learn?)
    ensures var r, after := w.runs[st.id], Next(c, w, st);
            var p := after.runs[st.id].phase;
      && p.Leaving? && p.lock == r.phase.lock
      && (st.DiscoveryAbstains? <==> p.result == Unknown) && (st.DiscoveryRaises? <==> p.result == Crashed)
      && (st.Learn? ==> p.result.DiscoveredAs?)
      && (p.result == DiscoveredAs(true) <==> Saves(after.log, r.tenant, r.doc) == Saves(w.log, r.tenant, r.doc) + 1)
      && (p.result != DiscoveredAs(true) ==> after.store == w.store && after.log == w.log)
      && (p.result == DiscoveredAs(true) ==> Stored(c, after.store, r.tenant, r.doc, Last(after.log).key))
      && (st.Learn? ==>
            (p.result == DiscoveredAs(true) <==> exists t :: Synthesises(c, r.doc, st.d, st.vlm, t))
            && forall t :: Synthesises(c, r.doc, st.d, st.vlm, t) ==>
                 Last(after.log) == Save(r.tenant, r.doc, t.fingerprintKey))
  {
    SynthesisedIsLearned(c, w.runs[st.id].doc, st);
    hide LearnedFrom, Stored, Synthesises;
    if st.Learn? && LearnedFrom(c, w.runs[st.id].doc, st.d, st.vlm).Some? {
      var r, t := w.runs[st.id], LearnedFrom(c, w.runs[st.id].doc, st.d, st.vlm).value;
      LogStep(w.log, Save(r.tenant, r.doc, t.fingerprintKey), r.tenant, r.doc);
      StoredByLearning(c, w.store, r.tenant, r.doc, st.d, st.vlm);
    }
    hide Saves;
  }

  /** The way to the lock and out of it: each of these steps moves one run on and leaves store and history alone. */
  lemma StepsOfARun(c: Config, w: World, st: Step)
    requires Enabled(c, w, st) && (st.Arrive? || st.GetLock? || st.Acquire? || st.Release?)
    ensures var after := Next(c, w, st);
      && after.store == w.store && after.log == w.log && st.id in after.runs
      && (st.Arrive? ==> after.runs[st.id] == Run(st.tenant, st.doc, Started))
      && (st.GetLock? ==> after.runs[st.id].phase.Waiting?)
      && (st.Acquire? ==> after.runs[st.id].phase == Locked(w.runs[st.id].phase.lock))
      && (st.Release? ==> after.runs[st.id].phase == Finished(w.runs[st.id].phase.result))
  {
  }

  /** No step of another run, nor of the environment, touches a run; and once finished no step at all does. */
  lemma RunUntouched(c: Config, w: World, st: Step, id: RunId)
    requires Enabled(c, w, st) && id in w.runs
    requires w.runs[id].phase.Finished? || st.Arrive? || st.QuarantineStep? || st.id != id
    ensures id in Next(c, w, st).runs && Next(c, w, st).runs[id] == w.runs[id]
  {
    hide Lookup, LearnedFrom;
  }

  /** What is decided stays: the result a run leaves the lock with is the one it finishes with. */
  ghost predicate Decided(p: Phase, result: Result) {
    (p.Leaving? || p.Finished?) && p.result == result
  }

  lemma {:induction false} DecidedStays(c: Config, w: World, more: seq<Step>, end: World, id: RunId, result: Result)
    requires id in w.runs && Decided(w.runs[id].phase, result) && After(c, w, more) == Some(end)
    ensures id in end.runs && Decided(end.runs[id].phase, result)
    ensures w.runs[id].phase.Finished? ==> end.runs[id] == w.runs[id]
  {
    if more != [] {
      var mid, st := After(c, w, Init(more)).value, Last(more);
      DecidedStays(c, w, Init(more), mid, id, result);
      if mid.runs[id].phase.Finished? || st.Arrive? || st.QuarantineStep? || st.id != id {
        RunUntouched(c, mid, st, id);
      } else {
        assert st == Release(id);
      }
    }
  }

  // ---- The theorems, over every run ----

  /** At most one run per (tenant, layout) key is inside the lock. */
  lemma MutualExclusion(c: Config, start: World, steps: seq<Step>, w: World, a: RunId, b: RunId)
    requires Initial(start) && After(c, start, steps) == Some(w)
    requires a in w.runs && b in w.runs && InLock(w.runs[a].phase) && InLock(w.runs[b].phase)
    requires c.keyOf(w.runs[a].tenant, w.runs[a].doc) == c.keyOf(w.runs[b].tenant, w.runs[b].doc)
    ensures a == b
  {
    HerdInvReached(c, start, steps, w, "", w.runs[a].doc);
    OneDiscoverer(c, w, a, b);
  }

  /** With the router's key, at most one run of a tenant per layout: documents with the same signature parts. */
  lemma OneRunPerLayout(c: Config, hash: string -> string, start: World, steps: seq<Step>, w: World, a: RunId, b: RunId)
    requires Initial(start) && After(c, start, steps) == Some(w)
    requires c.keyOf == SignatureKey(hash, c.themeOf)
    requires a in w.runs && b in w.runs && InLock(w.runs[a].phase) && InLock(w.runs[b].phase)
    requires w.runs[a].tenant == w.runs[b].tenant
    requires LL.SignatureParts(w.runs[a].doc, c.themeOf(w.runs[a].doc))
          == LL.SignatureParts(w.runs[b].doc, c.themeOf(w.runs[b].doc))
    ensures a == b
  {
    hide LL.SignatureParts;
    MutualExclusion(c, start, steps, w, a, b);
  }

  /** And no other runs wait for each other: keys of different tenants, or of different signatures, differ. */
  lemma KeysOfOthersDiffer(hash: string -> string, themeOf: Document -> Option<string>,
                           tenant: string, doc: Document, tenant': string, doc': Document)
    requires forall s :: LL.Lacks(hash(s), ':')
    ensures SignatureKey(hash, themeOf)(tenant, doc) == SignatureKey(hash, themeOf)(tenant', doc')
            <==> tenant == tenant' && LL.Signature(hash, doc, themeOf(doc)) == LL.Signature(hash, doc', themeOf(doc'))
  {
    LL.KeysApart(tenant, LL.Signature(hash, doc, themeOf(doc)), tenant', LL.Signature(hash, doc', themeOf(doc')));
  }

  /**
   * Herd collapse. However many runs carry copies of one document for one tenant, and whatever else is learned or
   * quarantined, its saving discoveries are as many as the times its learned template was quarantined by the tenant
   * or overwritten under its key, and one more while it is fresh.
   */
  lemma HerdCollapse(c: Config, start: World, steps: seq<Step>, w: World, tenant: string, doc: Document)
    requires Initial(start) && After(c, start, steps) == Some(w)
    ensures Saves(w.log, tenant, doc) == Disturbances(w.log, tenant, doc) + if Fresh(w.log, tenant, doc) then 1 else 0
    ensures Saves(w.log, tenant, doc) <= 1 + Disturbances(w.log, tenant, doc)
  {
    HerdInvReached(c, start, steps, w, tenant, doc);
  }

  function Quarantines(log: seq<Event>, tenant: string): nat {
    if log == [] then 0
    else Quarantines(Init(log), tenant) + if Last(log).Quarantine? && Last(log).tenant == tenant then 1 else 0
  }

  /** Everything that runs, and everything that was saved, is one document of one tenant. */
  ghost predicate OnlyCopies(w: World, tenant: string, doc: Document) {
    && AllCopies(w, tenant, doc)
    && Disturbances(w.log, tenant, doc) <= Quarantines(w.log, tenant)
  }

  ghost predicate AllCopies(w: World, tenant: string, doc: Document) {
    forall id :: id in w.runs ==> w.runs[id].tenant == tenant && w.runs[id].doc == doc
  }

  lemma AllCopiesStep(c: Config, w: World, st: Step, tenant: string, doc: Document)
    requires Enabled(c, w, st) && AllCopies(w, tenant, doc)
    requires st.Arrive? ==> st.tenant == tenant && st.doc == doc
    ensures AllCopies(Next(c, w, st), tenant, doc)
  {
    hide Lookup, LearnedFrom;
  }

  lemma QuarantinesSnoc(log: seq<Event>, ev: Event, tenant: string)
    ensures Quarantines(log + [ev], tenant)
         == Quarantines(log, tenant) + if ev.Quarantine? && ev.tenant == tenant then 1 else 0
  {
    assert Init(log + [ev]) == log;
  }

  lemma CopiesLogStep(log: seq<Event>, ev: Event, tenant: string, doc: Document)
    requires Disturbances(log, tenant, doc) <= Quarantines(log, tenant)
    requires ev.Save? ==> OwnSave(ev, tenant, doc)
    ensures Disturbances(log + [ev], tenant, doc) <= Quarantines(log + [ev], tenant)
  {
    LogStep(log, ev, tenant, doc);
    QuarantinesSnoc(log, ev, tenant);
  }

  lemma OnlyCopiesStep(c: Config, w: World, st: Step, tenant: string, doc: Document)
    requires Enabled(c, w, st) && OnlyCopies(w, tenant, doc)
    requires st.Arrive? ==> st.tenant == tenant && st.doc == doc
    ensures OnlyCopies(Next(c, w, st), tenant, doc)
  {
    AllCopiesStep(c, w, st, tenant, doc);
    if st.QuarantineStep? {
      CopiesLogStep(w.log, Quarantine(st.tenant, st.key), tenant, doc);
    } else if st.Learn? {
      var r := w.runs[st.id];
      assert r.tenant == tenant && r.doc == doc;
      var learned := LearnedFrom(c, r.doc, st.d, st.vlm);
      if learned.Some? {
        CopiesLogStep(w.log, Save(tenant, doc, learned.value.fingerprintKey), tenant, doc);
      }
    }
    hide Lookup, LearnedFrom, Disturbances, Quarantines, AllCopies;
  }

  lemma {:induction false} OnlyCopiesReached(
    c: Config, start: World, steps: seq<Step>, w: World, tenant: string, doc: Document)
    requires Initial(start) && After(c, start, steps) == Some(w)
    requires forall st :: st in steps && st.Arrive? ==> st.tenant == tenant && st.doc == doc
    ensures OnlyCopies(w, tenant, doc)
  {
    if steps != [] {
      var mid := After(c, start, Init(steps)).value;
      assert forall st :: st in Init(steps) ==> st in steps;
      OnlyCopiesReached(c, start, Init(steps), mid, tenant, doc);
      OnlyCopiesStep(c, mid, Last(steps), tenant, doc);
    }
  }

  /** When all that arrives is copies of one document for one tenant, only quarantines can cost another discovery. */
  lemma HerdOfCopies(c: Config, start: World, steps: seq<Step>, w: World, tenant: string, doc: Document)
    requires Initial(start) && After(c, start, steps) == Some(w)
    requires forall st :: st in steps && st.Arrive? ==> st.tenant == tenant && st.doc == doc
    ensures Saves(w.log, tenant, doc) <= 1 + Quarantines(w.log, tenant)
  {
    HerdCollapse(c, start, steps, w, tenant, doc);
    OnlyCopiesReached(c, start, steps, w, tenant, doc);
  }

  /**
   * A copy of a document that looks for the first time while its learned template is undisturbed, and no usable
   * template raises, is answered from a template at once: whatever happens next, it never waits for the lock.
   */
  lemma CopyHitsAtOnce(c: Config, start: World, steps: seq<Step>, w: World, id: RunId, more: seq<Step>, end: World)
    requires Initial(start) && After(c, start, steps) == Some(w) && Enabled(c, w, FirstLookup(id))
    requires Fresh(w.log, w.runs[id].tenant, w.runs[id].doc)
    requires !SomeRaises(c, w.store, w.runs[id].tenant, w.runs[id].doc)
    requires After(c, Next(c, w, FirstLookup(id)), more) == Some(end)
    ensures id in end.runs && end.runs[id].phase.Finished? && end.runs[id].phase.result.TemplateHit?
    ensures var hit := end.runs[id].phase.result;
            BestHit(c, w.store, w.runs[id].tenant, w.runs[id].doc, hit.template, hit.extraction)
  {
    var r, after := w.runs[id], Next(c, w, FirstLookup(id));
    HerdInvReached(c, start, steps, w, r.tenant, r.doc);
    StoredIsFound(c, w.store, r.tenant, r.doc, FreshKey(w.log, r.tenant, r.doc).value);
    LookupMeaning(c, w.store, r.tenant, r.doc);
    FirstLookupAnswers(c, w, id);
    hide HerdInv, Lookup, SomeRaises, SomeExtracts, BestHit, Enabled, Fresh, FreshKey;
    DecidedStays(c, after, more, end, id, after.runs[id].phase.result);
  }

  /** The lock is free again once its holder has left: a waiting run may enter exactly when no run is inside. */
  lemma WaitingEntersIff(c: Config, start: World, steps: seq<Step>, w: World, id: RunId)
    requires Initial(start) && After(c, start, steps) == Some(w) && id in w.runs && w.runs[id].phase.Waiting?
    ensures Enabled(c, w, Acquire(id))
            <==> forall other :: other in w.runs && InLock(w.runs[other].phase) ==>
                   w.runs[other].phase.lock != w.runs[id].phase.lock
  {
    HerdInvReached(c, start, steps, w, "", w.runs[id].doc);
    HeldReached(c, start, steps, w);
  }

  /** Whoever is recorded as a lock's holder is inside it. */
  ghost predicate HeldInv(w: World) {
    forall lock :: lock in w.held ==>
      w.held[lock] in w.runs && InLock(w.runs[w.held[lock]].phase) && w.runs[w.held[lock]].phase.lock == lock
  }

  lemma HeldStep(c: Config, w: World, st: Step)
    requires Enabled(c, w, st) && HeldInv(w) && LockInv(c, w)
    ensures HeldInv(Next(c, w, st))
  {
    hide Lookup, LearnedFrom;
    if !st.Arrive? && !st.QuarantineStep? && !st.GetLock? && !st.Acquire? && !st.Release? {
      hide LockInv;
      StillInside(c, w, st);
      hide Next, Enabled;
    }
  }

  /** What a run does inside the lock, or before it comes to it, leaves everyone where they are. */
  lemma StillInside(c: Config, w: World, st: Step)
    requires Enabled(c, w, st)
    requires !st.Arrive? && !st.QuarantineStep? && !st.GetLock? && !st.Acquire? && !st.Release?
    ensures var after := Next(c, w, st);
      && after.held == w.held && after.runs.Keys == w.runs.Keys && st.id in w.runs
      && (forall id :: id in w.runs && id != st.id ==> after.runs[id] == w.runs[id])
      && (InLock(w.runs[st.id].phase) ==>
            InLock(after.runs[st.id].phase) && after.runs[st.id].phase.lock == w.runs[st.id].phase.lock)
  {
    hide Lookup, LearnedFrom;
  }

  lemma {:induction false} HeldReached(c: Config, start: World, steps: seq<Step>, w: World)
    requires Initial(start) && After(c, start, steps) == Some(w)
    ensures HeldInv(w)
  {
    if steps != [] {
      var mid := After(c, start, Init(steps)).value;
      HeldReached(c, start, Init(steps), mid);
      HerdInvReached(c, start, Init(steps), mid, "", Document([], [], []));
      hide HeldInv, LockInv, Next, Enabled;
      HeldStep(c, mid, Last(steps));
    }
  }

  // ---- Quarantine ----

  /** The last that happened to the tenant's template under this key was its quarantine. */
  predicate Banned(log: seq<Event>, tenant: string, key: string) {
    log != [] &&
    if Last(log).tenant == tenant && Last(log).key == key then Last(log).Quarantine?
    else Banned(Init(log), tenant, key)
  }

  lemma BannedSnoc(log: seq<Event>, ev: Event, tenant: string, key: string)
    ensures Banned(log + [ev], tenant, key)
            <==> if ev.tenant == tenant && ev.key == key then ev.Quarantine? else Banned(log, tenant, key)
  {
    assert Init(log + [ev]) == log;
  }

  lemma BannedStep(c: Config, w: World, st: Step, tenant: string, key: string)
    requires Enabled(c, w, st) && (Banned(w.log, tenant, key) ==> (tenant, key) in w.store.quarantined)
    ensures Banned(Next(c, w, st).log, tenant, key) ==> (tenant, key) in Next(c, w, st).store.quarantined
  {
    if st.QuarantineStep? {
      BannedSnoc(w.log, Quarantine(st.tenant, st.key), tenant, key);
    } else if st.Learn? {
      var r := w.runs[st.id];
      var learned := LearnedFrom(c, r.doc, st.d, st.vlm);
      if learned.Some? {
        BannedSnoc(w.log, Save(r.tenant, r.doc, learned.value.fingerprintKey), tenant, key);
      }
    }
    hide Banned, Lookup, LearnedFrom;
  }

  lemma {:induction false} BannedReached(
    c: Config, start: World, steps: seq<Step>, w: World, tenant: string, key: string)
    requires Initial(start) && After(c, start, steps) == Some(w)
    ensures Banned(w.log, tenant, key) ==> (tenant, key) in w.store.quarantined
  {
    if steps != [] {
      var mid := After(c, start, Init(steps)).value;
      BannedReached(c, start, Init(steps), mid, tenant, key);
      hide Banned, Next, Enabled;
      BannedStep(c, mid, Last(steps), tenant, key);
    }
  }

  /** In every run, from a tenant's quarantine of a key until it saves that key again, none of its lookups hits it. */
  lemma QuarantinedIsNotUsed(c: Config, start: World, steps: seq<Step>, w: World, tenant: string, doc: Document)
    requires Initial(start) && After(c, start, steps) == Some(w) && Lookup(c, w.store, tenant, doc).Hit?
    ensures !Banned(w.log, tenant, Lookup(c, w.store, tenant, doc).template.fingerprintKey)
  {
    LookupMeaning(c, w.store, tenant, doc);
    BannedReached(c, start, steps, w, tenant, Lookup(c, w.store, tenant, doc).template.fingerprintKey);
  }

  /** Once learned and undisturbed, a run that takes the lock never discovers; it hits unless a lookup raises. */
  lemma LearnedTemplateIsReused(c: Config, start: World, steps: seq<Step>, w: World, id: RunId)
    requires Initial(start) && After(c, start, steps) == Some(w)
    requires id in w.runs && w.runs[id].phase.Locked? && Fresh(w.log, w.runs[id].tenant, w.runs[id].doc)
    ensures var after := Next(c, w, SecondLookup(id)).runs[id].phase;
            after.Leaving? && (after.result.TemplateHit? || after.result == Crashed)
    ensures var r := w.runs[id];
            c.themeOf(r.doc).Some? &&
            ((forall t :: t in TS.InTheme(w.store, r.tenant, c.themeOf(r.doc).value)
                          ==> Extracted(c.engine, t, r.doc).Returned?)
             <==> Next(c, w, SecondLookup(id)).runs[id].phase.result.TemplateHit?)
  {
    var r := w.runs[id];
    hide After, Fresh, FreshKey, Extracted;
    HerdInvReached(c, start, steps, w, r.tenant, r.doc);
    StoredIsFound(c, w.store, r.tenant, r.doc, FreshKey(w.log, r.tenant, r.doc).value);
    Router.AttemptMeaning(c.engine, r.doc, TS.InTheme(w.store, r.tenant, c.themeOf(r.doc).value));
  }
}
