/**
 What a successful compilation guarantees: the two editions carry the same tours, and every
 tour a tenant is offered leads to topics the tenant can open
 (backend/app/help/compiler.py, backend/app/help/artifact.py).
 */
module HelpPublication {
  import opened Common
  import opened Sorting
  import opened Text
  import opened HelpCompiler
  import opened HelpTours

  // ---- Parity of the tour releases ----

  /** A step without its localized text. */
  function Bare(s: Step): Step {
    s.(title := "", content := "", summary := "")
  }

  function BareEntry(e: Entry): Entry {
    Entry(e.releaseId, Bare(e.step))
  }

  function BareRelease(r: Release): Release {
    r.(steps := Map(Bare, r.steps))
  }

  lemma SameTopicEntries(rules: Rules, a: Topic, b: Topic)
    requires SameMetadata(rules, a, b)
    ensures Map(BareEntry, TopicEntries(a)) == Map(BareEntry, TopicEntries(b))
  {
    var x, y := TopicEntries(a), TopicEntries(b);
    if a.tour.Some? {
      assert Map(KeyOf, a.tour.value) == Map(KeyOf, b.tour.value);
      forall i | 0 <= i < |x| ensures BareEntry(x[i]) == BareEntry(y[i]) {
        assert Map(KeyOf, a.tour.value)[i] == Map(KeyOf, b.tour.value)[i];
      }
    }
  }

  /** Mapping over a concatenation, for editions that agree piece by piece. */
  lemma {:induction false} FlattenAgrees<A, B, C>(f: A -> seq<B>, g: B -> C, s: seq<A>, t: seq<A>)
    requires |s| == |t| && forall i :: 0 <= i < |s| ==> Map(g, f(s[i])) == Map(g, f(t[i]))
    ensures Map(g, Flatten(f, s)) == Map(g, Flatten(f, t))
  {
    if s != [] {
      var n := |s| - 1;
      FlattenAgrees(f, g, s[..n], t[..n]);
      MapAppend(g, Flatten(f, s[..n]), f(s[n]));
      MapAppend(g, Flatten(f, t[..n]), f(t[n]));
    }
  }

  lemma MapAppend<A, B>(f: A -> B, s: seq<A>, t: seq<A>)
    ensures Map(f, s + t) == Map(f, s) + Map(f, t)
  {
  }

  lemma SameEntries(rules: Rules, en: seq<Topic>, es: seq<Topic>)
    requires Mirrored(rules, en, es)
    ensures Map(BareEntry, Entries(en)) == Map(BareEntry, Entries(es))
  {
    forall i | 0 <= i < |en| ensures Map(BareEntry, TopicEntries(en[i])) == Map(BareEntry, TopicEntries(es[i])) {
      SameTopicEntries(rules, en[i], es[i]);
    }
    FlattenAgrees(TopicEntries, BareEntry, en, es);
  }

  lemma {:induction false} BareStepsOf(name: string, entries: seq<Entry>)
    ensures Map(Bare, StepsOf(name, entries)) == StepsOf(name, Map(BareEntry, entries))
  {
    if entries != [] {
      var n := |entries| - 1;
      BareStepsOf(name, entries[..n]);
      assert Map(BareEntry, entries)[..n] == Map(BareEntry, entries[..n]);
    }
  }

  /** Sorting looks at order and topic only, so it commutes with dropping the localized text. */
  lemma SameOrder(a: seq<Step>, b: seq<Step>)
    requires Map(Bare, a) == Map(Bare, b)
    ensures Map(Bare, Sort(ByOrder, a)) == Map(Bare, Sort(ByOrder, b))
  {
    SortMap(ByOrder, ByOrder, Bare, a);
    SortMap(ByOrder, ByOrder, Bare, b);
  }

  lemma BareAt(a: seq<Step>, b: seq<Step>, i: nat)
    requires Map(Bare, a) == Map(Bare, b) && i < |a|
    ensures |a| == |b| && Bare(a[i]) == Bare(b[i])
  {
    assert |Map(Bare, a)| == |Map(Bare, b)|;
    assert Map(Bare, a)[i] == Map(Bare, b)[i];
  }

  lemma SameNumbering(a: seq<Step>, b: seq<Step>)
    requires Map(Bare, a) == Map(Bare, b)
    ensures Numbered(a) <==> Numbered(b)
  {
    assert |Map(Bare, a)| == |Map(Bare, b)|;
    forall i | 0 <= i < |a| ensures a[i].order == b[i].order {
      BareAt(a, b, i);
    }
  }

  lemma SamePlans(a: seq<Step>, b: seq<Step>)
    requires Map(Bare, a) == Map(Bare, b)
    ensures PlansOf(a) <= PlansOf(b)
  {
    forall p | p in PlansOf(a) ensures p in PlansOf(b) {
      var s :| s in a && p in s.plans;
      var i :| 0 <= i < |a| && a[i] == s;
      BareAt(a, b, i);
      assert b[i] in b && p in b[i].plans;
    }
  }

  lemma SameGroup(rules: Rules, en: seq<Topic>, es: seq<Topic>, name: string)
    requires Mirrored(rules, en, es)
    ensures Map(Bare, StepsOf(name, Entries(en))) == Map(Bare, StepsOf(name, Entries(es)))
  {
    SameEntries(rules, en, es);
    BareStepsOf(name, Entries(en));
    BareStepsOf(name, Entries(es));
  }

  lemma SameReleaseIds(rules: Rules, en: seq<Topic>, es: seq<Topic>)
    requires Mirrored(rules, en, es)
    ensures ReleaseIds(Entries(en)) == ReleaseIds(Entries(es))
  {
    SameEntries(rules, en, es);
    BareIds(Entries(en), Entries(es));
    BareIds(Entries(es), Entries(en));
  }

  lemma BareIds(a: seq<Entry>, b: seq<Entry>)
    requires Map(BareEntry, a) == Map(BareEntry, b)
    ensures ReleaseIds(a) <= ReleaseIds(b)
  {
    forall r | r in ReleaseIds(a) ensures r in ReleaseIds(b) {
      var i :| 0 <= i < |a| && a[i].releaseId == r;
      assert |Map(BareEntry, a)| == |Map(BareEntry, b)|;
      assert Map(BareEntry, a)[i] == Map(BareEntry, b)[i];
      assert b[i] in b && b[i].releaseId == r;
    }
  }

  /** The Spanish numbering needs no check of its own. */
  lemma NumberingParity(rules: Rules, en: seq<Topic>, es: seq<Topic>)
    requires Mirrored(rules, en, es)
    ensures WellNumbered(en) <==> WellNumbered(es)
  {
    forall name: string ensures Orderly(StepsOf(name, Entries(en))) <==> Orderly(StepsOf(name, Entries(es))) {
      SameGroup(rules, en, es, name);
      SameOrder(StepsOf(name, Entries(en)), StepsOf(name, Entries(es)));
      SameNumbering(Sort(ByOrder, StepsOf(name, Entries(en))), Sort(ByOrder, StepsOf(name, Entries(es))));
    }
  }

  lemma SameRelease(a: Release, b: Release, name: string, left: seq<Step>, right: seq<Step>)
    requires MadeOf(a, name, left) && MadeOf(b, name, right)
    requires Map(Bare, left) == Map(Bare, right)
    ensures BareRelease(a) == BareRelease(b)
  {
    SameOrder(left, right);
    SamePlans(a.steps, b.steps);
    SamePlans(b.steps, a.steps);
    ListsUnique(a.plans, b.plans, PlansOf(a.steps));
  }

  /**
   The releases of mirrored editions are the same sequence of releases with the same plans and
   the same steps, up to title, content and summary.
   */
  lemma ReleaseParity(rules: Rules, en: seq<Topic>, es: seq<Topic>, english: seq<Release>, spanish: seq<Release>)
    requires Mirrored(rules, en, es)
    requires Releases(en, english) && Releases(es, spanish)
    ensures Map(ReleaseName, english) == Map(ReleaseName, spanish)
    ensures Map(BareRelease, english) == Map(BareRelease, spanish)
  {
    SameReleaseIds(rules, en, es);
    ListsUnique(Map(ReleaseName, english), Map(ReleaseName, spanish), ReleaseIds(Entries(en)));
    assert |english| == |Map(ReleaseName, english)| == |spanish|;
    forall i | 0 <= i < |english| ensures BareRelease(english[i]) == BareRelease(spanish[i]) {
      var name := english[i].releaseId;
      assert Map(ReleaseName, english)[i] == Map(ReleaseName, spanish)[i];
      SameGroup(rules, en, es, name);
      SameRelease(english[i], spanish[i], name, StepsOf(name, Entries(en)), StepsOf(name, Entries(es)));
    }
  }

  // ---- The whole compilation ----

  /**
   What authors must meet.  Spanish related topics, the Spanish numbering and the final
   comparison of release names do not appear: the other rules imply them.
   */
  ghost predicate Publishable(rules: Rules, source: map<string, seq<Draft>>) {
    && source.Keys == LOCALES
    && ValidLocale(rules, source["en"]) && ValidLocale(rules, source["es"])
    && Ids(CompiledLocale(source["en"])) == Ids(CompiledLocale(source["es"]))
    && Mirrored(rules, CompiledLocale(source["en"]), CompiledLocale(source["es"]))
    && RelatedKnown(CompiledLocale(source["en"]), Ids(CompiledLocale(source["en"])))
    && ToursNumbered(CompiledLocale(source["en"]))
  }

  /** One locale of the artifact: valid drafts, their compiled topics, and the releases made of them. */
  ghost predicate Edition(rules: Rules, drafts: seq<Draft>, topics: seq<Topic>, releases: seq<Release>) {
    ValidLocale(rules, drafts) && topics == CompiledLocale(drafts) && Releases(topics, releases)
  }

  ghost function EditionsOf(rules: Rules): (seq<Draft>, seq<Topic>, seq<Release>) -> bool {
    (drafts, topics, releases) => Edition(rules, drafts, topics, releases)
  }

  ghost predicate Published(rules: Rules, source: map<string, seq<Draft>>, a: Artifact) {
    && a.topics.Keys == a.releases.Keys == source.Keys
    && forall locale :: locale in source ==> EditionsOf(rules)(source[locale], a.topics[locale], a.releases[locale])
  }

  lemma RelatedParity(rules: Rules, en: seq<Topic>, es: seq<Topic>, known: set<string>)
    requires Mirrored(rules, en, es)
    ensures RelatedKnown(en, known) <==> RelatedKnown(es, known)
  {
    forall i | 0 <= i < |es| ensures es[i].fields.relatedTopics == en[i].fields.relatedTopics {
      assert SameMetadata(rules, en[i], es[i]);
    }
  }

  /** On mirrored editions the final comparison of release names never finds a difference. */
  lemma ParityNeverFails(rules: Rules, en: seq<Topic>, es: seq<Topic>)
    requires Mirrored(rules, en, es)
    ensures !exists a, b :: Releases(en, a) && Releases(es, b) && Map(ReleaseName, a) != Map(ReleaseName, b)
  {
    forall a, b | Releases(en, a) && Releases(es, b) ensures Map(ReleaseName, a) == Map(ReleaseName, b) {
      ReleaseParity(rules, en, es, a, b);
    }
  }

  /** On mirrored editions only the English numbering decides, and the two editions get the same tours. */
  method CompileMirrored(ghost rules: Rules, en: seq<Topic>, es: seq<Topic>)
    returns (r: Result<(seq<Release>, seq<Release>)>)
    requires Mirrored(rules, en, es)
    ensures r.Ok? <==> WellNumbered(en)
    ensures r.Ok? ==> Releases(en, r.value.0) && Releases(es, r.value.1)
    ensures r.Ok? ==> Map(BareRelease, r.value.0) == Map(BareRelease, r.value.1)
    ensures r.Err? ==> !r.error.ReleaseParity?
  {
    r := CompileTourReleases(en, es);
    NumberingParity(rules, en, es);
    ParityNeverFails(rules, en, es);
    if r.Ok? {
      ReleaseParity(rules, en, es, r.value.0, r.value.1);
    }
  }

  /** The checks that compare the two editions. */
  method Assemble(rules: Rules, en: seq<Topic>, es: seq<Topic>)
    returns (r: Result<(seq<Release>, seq<Release>)>)
    requires SortedById(en) && SortedById(es) && Ids(en) == Ids(es)
    ensures r.Ok? <==> Mirrored(rules, en, es) && RelatedKnown(en, Ids(en)) && WellNumbered(en)
    ensures r.Ok? ==> Releases(en, r.value.0) && Releases(es, r.value.1)
    ensures r.Ok? ==> Map(BareRelease, r.value.0) == Map(BareRelease, r.value.1)
    ensures r.Err? ==> !r.error.ReleaseParity?
  {
    var fault := ValidateMetadataParity(rules, en, es);
    if fault.Some? {
      return Err(fault.value);
    }
    fault := ValidateRelatedTopics(en, es);
    RelatedParity(rules, en, es, Ids(en));
    if fault.Some? {
      return Err(fault.value);
    }
    r := CompileMirrored(rules, en, es);
  }

  function Bundle(en: seq<Topic>, es: seq<Topic>, english: seq<Release>, spanish: seq<Release>): Artifact {
    Artifact(map["en" := en, "es" := es], map["en" := english, "es" := spanish])
  }

  lemma BundlePublished(rules: Rules, source: map<string, seq<Draft>>, en: seq<Topic>, es: seq<Topic>,
                        english: seq<Release>, spanish: seq<Release>)
    requires source.Keys == LOCALES
    requires Edition(rules, source["en"], en, english) && Edition(rules, source["es"], es, spanish)
    ensures Published(rules, source, Bundle(en, es, english, spanish))
    ensures Bundle(en, es, english, spanish).releases["en"] == english
    ensures Bundle(en, es, english, spanish).releases["es"] == spanish
  {
    TwoEntries(EditionsOf(rules), source, "en", "es", en, es, english, spanish);
  }

  /** What holds of two entries holds of the maps made of them. */
  lemma TwoEntries<D, T, R>(holds: (D, T, R) -> bool, source: map<string, D>, x: string, y: string,
                            t1: T, t2: T, r1: R, r2: R)
    requires x != y && source.Keys == {x, y} && holds(source[x], t1, r1) && holds(source[y], t2, r2)
    ensures var ts, rs := map[x := t1, y := t2], map[x := r1, y := r2];
            && ts.Keys == source.Keys == rs.Keys
            && forall l :: l in source ==> holds(source[l], ts[l], rs[l])
  {
  }

  lemma EditionAuthored(rules: Rules, drafts: seq<Draft>, topics: seq<Topic>, releases: seq<Release>)
    requires Edition(rules, drafts, topics, releases) && WellNumbered(topics)
    ensures AuthoredEdition(drafts, topics, releases)
  {
    PagesPublished(drafts);
    AllPublished(drafts, releases);
    AllInOrder(topics, releases);
  }

  ghost function AuthoredEditions(): (seq<Draft>, seq<Topic>, seq<Release>) -> bool {
    (drafts, topics, releases) => AuthoredEdition(drafts, topics, releases)
  }

  /** Every locale of the artifact holds its pages as topics and their tour entries as steps. */
  ghost predicate Authored(source: map<string, seq<Draft>>, a: Artifact) {
    && a.topics.Keys == a.releases.Keys == source.Keys
    && forall locale :: locale in source ==> AuthoredEditions()(source[locale], a.topics[locale], a.releases[locale])
  }

  lemma BundleAuthored(rules: Rules, source: map<string, seq<Draft>>, en: seq<Topic>, es: seq<Topic>,
                       english: seq<Release>, spanish: seq<Release>)
    requires source.Keys == LOCALES && Mirrored(rules, en, es) && WellNumbered(en)
    requires Edition(rules, source["en"], en, english) && Edition(rules, source["es"], es, spanish)
    ensures Authored(source, Bundle(en, es, english, spanish))
  {
    NumberingParity(rules, en, es);
    EditionAuthored(rules, source["en"], en, english);
    EditionAuthored(rules, source["es"], es, spanish);
    TwoEntries(AuthoredEditions(), source, "en", "es", en, es, english, spanish);
  }

  /**
   Accepted exactly when the authors met the rules.  The artifact then holds, locale by locale, exactly
   the pages as topics and exactly their tour entries as steps.
   */
  method Compile(rules: Rules, source: map<string, seq<Draft>>) returns (r: Result<Artifact>)
    ensures r.Ok? <==> Publishable(rules, source)
    ensures r.Ok? ==> Published(rules, source, r.value)
    ensures r.Ok? ==> Authored(source, r.value)
    ensures r.Ok? ==>
      Map(BareRelease, r.value.releases["en"]) == Map(BareRelease, r.value.releases["es"])
    ensures r.Err? ==> !r.error.ReleaseParity?
  {
    if source.Keys - LOCALES != {} {
      assert source.Keys != LOCALES;
      return Err(UnknownLocales);
    }
    if "en" !in source {
      return Err(MissingLocale("en"));
    }
    var en, enIds := CompileLocale(rules, source["en"]);
    if en.Err? {
      return Err(en.error);
    }
    if "es" !in source {
      return Err(MissingLocale("es"));
    }
    assert source.Keys == LOCALES;
    var es, esIds := CompileLocale(rules, source["es"]);
    if es.Err? {
      return Err(es.error);
    }
    if enIds != esIds {
      return Err(IdParity);
    }
    CompiledLocaleSorted(source["en"]);
    CompiledLocaleSorted(source["es"]);
    NumberingIff(en.value);
    var releases := Assemble(rules, en.value, es.value);
    if releases.Err? {
      return Err(releases.error);
    }
    BundlePublished(rules, source, en.value, es.value, releases.value.0, releases.value.1);
    BundleAuthored(rules, source, en.value, es.value, releases.value.0, releases.value.1);
    r := Ok(Bundle(en.value, es.value, releases.value.0, releases.value.1));
  }
}
