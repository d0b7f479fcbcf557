/** Trying every template filed under a theme and keeping the best clean extraction. */
module Router {
  import opened Common
  import opened Templates
  import opened TemplateStore

  datatype Attempt = Hit(template: Template, extraction: Extraction) | Miss | Crash

  /** The first template with the highest score among those that extract cleanly so far. */
  function Attempted(e: Engine, doc: Document, templates: seq<Template>): Attempt {
    if templates == [] then Miss
    else
      var prior, r := Attempted(e, doc, Init(templates)), Extracted(e, Last(templates), doc);
      if prior.Crash? || r.Raised? then Crash
      else if Clean(r) && (prior.Miss? || Score(r.value) > Score(prior.extraction))
      then Hit(Last(templates), r.value)
      else prior
  }

  method TryThemeTemplates(e: Engine, doc: Document, theme: string, store: TemplateStore, tenant: string)
    returns (r: Attempt)
    ensures r == Attempted(e, doc, InTheme(store.State(), tenant, theme))
  {
    var templates := store.FindInTheme(tenant, theme);
    var bestScore := 0;
    r := Miss;
    for i := 0 to |templates|
      invariant !r.Crash? && r == Attempted(e, doc, templates[..i])
      invariant bestScore == if r.Hit? then Score(r.extraction) else 0
      invariant r.Hit? ==> bestScore > 0
    {
      assert Init(templates[..i + 1]) == templates[..i];
      var result := Extract(e, templates[i], doc);
      if result.Raised? {
        CrashSpreads(e, doc, templates, i + 1);
        return Crash;
      }
      if result.value.abstentions != [] {
        continue;
      }
      if Score(result.value) > bestScore {
        bestScore, r := Score(result.value), Hit(templates[i], result.value);
      }
    }
    assert templates[..|templates|] == templates;
  }

  lemma {:induction false} CrashSpreads(e: Engine, doc: Document, templates: seq<Template>, k: nat)
    requires k <= |templates| && Attempted(e, doc, templates[..k]).Crash?
    ensures Attempted(e, doc, templates).Crash?
    decreases |templates|
  {
    if k == |templates| {
      assert templates[..k] == templates;
    } else {
      assert Init(templates)[..k] == templates[..k];
      CrashSpreads(e, doc, Init(templates), k);
    }
  }

  /** A hit is a clean extraction no other template beats; a crash or a miss is just as exactly characterised. */
  lemma {:induction false} AttemptMeaning(e: Engine, doc: Document, templates: seq<Template>)
    ensures Attempted(e, doc, templates).Crash?
            <==> exists t :: t in templates && Extracted(e, t, doc).Raised?
    ensures Attempted(e, doc, templates).Miss?
            <==> forall t :: t in templates ==> Extracted(e, t, doc).Returned? && !Clean(Extracted(e, t, doc))
    ensures match Attempted(e, doc, templates)
            case Hit(best, x) =>
              && best in templates && Extracted(e, best, doc) == Returned(x) && Clean(Returned(x))
              && forall t :: t in templates && Clean(Extracted(e, t, doc)) ==>
                   Score(Extracted(e, t, doc).value) <= Score(x)
            case _ => true
  {
    if templates != [] {
      AttemptMeaning(e, doc, Init(templates));
      assert templates == Init(templates) + [Last(templates)];
      assert Last(templates) in templates;
    }
  }

  /** Of equally good templates the first one wins: every clean one before it extracts less. */
  lemma {:induction false} FirstBestWins(e: Engine, doc: Document, templates: seq<Template>) returns (k: nat)
    requires Attempted(e, doc, templates).Hit?
    ensures k < |templates| && templates[k] == Attempted(e, doc, templates).template
    ensures forall j :: 0 <= j < k && Clean(Extracted(e, templates[j], doc)) ==>
              var less, x := Extracted(e, templates[j], doc).value, Attempted(e, doc, templates).extraction;
              |less.fields| + |less.tables| < |x.fields| + |x.tables|
  {
    hide Extracted;
    var prior := Attempted(e, doc, Init(templates));
    AttemptMeaning(e, doc, Init(templates));
    if prior.Hit? && Attempted(e, doc, templates) == prior {
      k := FirstBestWins(e, doc, Init(templates));
      hide Attempted;
    } else {
      k := |templates| - 1;
      var x := Attempted(e, doc, templates).extraction;
      assert prior.Miss? || (prior.Hit? && Score(prior.extraction) < Score(x));
      hide Attempted;
      forall j | 0 <= j < k && Clean(Extracted(e, templates[j], doc))
        ensures Score(Extracted(e, templates[j], doc).value) < Score(x)
      {
        assert templates[j] in Init(templates);
      }
    }
  }
}
