/** Lookups in the published artifact (backend/app/help/artifact.py), and what they find in a compiled one. */
module HelpCatalog {
  import opened Common
  import opened Sorting
  import opened Text
  import opened HelpCompiler
  import opened HelpTours
  import opened HelpPublication

  function TopicsOf(a: Artifact, locale: string): seq<Topic> {
    if locale in a.topics then a.topics[locale] else []
  }

  function ReleasesOf(a: Artifact, locale: string): seq<Release> {
    if locale in a.releases then a.releases[locale] else []
  }

  predicate ByOrderAndId(a: Topic, b: Topic) {
    a.fields.order < b.fields.order || (a.fields.order == b.fields.order && Less(a.fields.id, b.fields.id))
  }

  predicate Authorized(t: Topic, plan: string, audience: string) {
    t.fields.audience == audience && plan in t.fields.plans
  }

  function AuthorizedTopics(topics: seq<Topic>, plan: string, audience: string): seq<Topic> {
    Sort(ByOrderAndId, Filter(t => Authorized(t, plan, audience), topics))
  }

  function FirstWithId(topics: seq<Topic>, id: string): Option<Topic> {
    if topics == [] then None
    else if topics[0].fields.id == id then Some(topics[0])
    else FirstWithId(topics[1..], id)
  }

  /** `HelpCatalog.topic`, on the topics of one locale. */
  function FindTopic(topics: seq<Topic>, plan: string, id: string, audience: string): Option<Topic> {
    FirstWithId(AuthorizedTopics(topics, plan, audience), id)
  }

  function TourReleases(releases: seq<Release>, plan: string): seq<Release> {
    Filter((r: Release) => plan in r.plans, releases)
  }

  function FirstNamed(releases: seq<Release>, name: Option<string>): Option<Release> {
    if releases == [] then None
    else if name.None? || releases[0].releaseId == name.value then Some(releases[0])
    else FirstNamed(releases[1..], name)
  }

  /** What a tour step shows: everything but its plans. */
  function Shown(s: Step): Step {
    s.(plans := [])
  }

  function IsFor(plan: string): Step -> bool { (s: Step) => plan in s.plans }

  function ForPlan(r: Release, plan: string): Release {
    r.(steps := Map(Shown, Filter(IsFor(plan), r.steps)))
  }

  /** `HelpCatalog.tour_release`, on the releases of one locale. */
  function TourRelease(releases: seq<Release>, plan: string, name: Option<string>): Option<Release> {
    match FirstNamed(TourReleases(releases, plan), name)
    case None => None
    case Some(r) => Some(ForPlan(r, plan))
  }

  // ---- What validation leaves ----

  ghost predicate SoundTour(t: Topic, tour: Tour) {
    && t.fields.audience == "tenant_admin"
    && (forall p :: p in tour.plans ==> p in t.fields.plans)
    && "/admin/" <= t.fields.route
    && tour.target in t.fields.helpTargets && !("client." <= tour.target)
  }

  /** What validation leaves in a compiled topic that has a tour entry. */
  lemma TourOfValidTopic(rules: Rules, drafts: seq<Draft>, t: Topic, tour: Tour)
    requires ValidLocale(rules, drafts) && t in CompiledLocale(drafts) && tour in Tours(t)
    ensures SoundTour(t, tour)
  {
    InCompiledLocale(drafts, t);
    var i :| 0 <= i < |drafts| && t == CompiledTopic(drafts[i]);
    assert ValidTopic(rules, drafts[i]);
    var j :| 0 <= j < |Tours(t)| && Tours(t)[j] == tour;
    assert tour == CompiledTour(drafts[i].tour.value[j], t.fields.plans);
  }

  lemma {:induction false} FirstWithIdFinds(topics: seq<Topic>, t: Topic)
    requires t in topics && forall x, y :: x in topics && y in topics && x.fields.id == y.fields.id ==> x == y
    ensures FirstWithId(topics, t.fields.id) == Some(t)
  {
    assert topics[0] in topics;
    if topics[0].fields.id != t.fields.id {
      FirstWithIdFinds(topics[1..], t);
    }
  }

  lemma SortedIdsUnique(topics: seq<Topic>)
    requires SortedById(topics)
    ensures forall x, y :: x in topics && y in topics && x.fields.id == y.fields.id ==> x == y
  {
    forall i, j | 0 <= i < j < |topics| ensures topics[i].fields.id != topics[j].fields.id {
      assert ById(topics[i], topics[j]);
      LessTotal(topics[i].fields.id, topics[i].fields.id);
    }
  }

  lemma AuthorizedFound(topics: seq<Topic>, plan: string, audience: string, t: Topic)
    requires SortedById(topics) && t in topics && Authorized(t, plan, audience)
    ensures FindTopic(topics, plan, t.fields.id, audience) == Some(t)
  {
    SortedIdsUnique(topics);
    SameElements(ByOrderAndId, Filter(x => Authorized(x, plan, audience), topics));
    FirstWithIdFinds(AuthorizedTopics(topics, plan, audience), t);
  }

  lemma {:induction false} FirstWithIdIs(topics: seq<Topic>, id: string)
    ensures FirstWithId(topics, id).Some? ==> FirstWithId(topics, id).value in topics
                                              && FirstWithId(topics, id).value.fields.id == id
  {
    if topics != [] && topics[0].fields.id != id {
      FirstWithIdIs(topics[1..], id);
    }
  }

  /** A lookup answers with the topic of that id if it is meant for the audience and the plan, and else with nothing. */
  lemma FoundIff(topics: seq<Topic>, plan: string, id: string, audience: string, t: Topic)
    requires SortedById(topics)
    ensures FindTopic(topics, plan, id, audience) == Some(t) <==>
              t in topics && t.fields.id == id && t.fields.audience == audience && plan in t.fields.plans
  {
    SameElements(ByOrderAndId, Filter(x => Authorized(x, plan, audience), topics));
    FirstWithIdIs(AuthorizedTopics(topics, plan, audience), id);
    if t in topics && t.fields.id == id && Authorized(t, plan, audience) {
      AuthorizedFound(topics, plan, audience, t);
    }
  }

  // ---- The index ----

  lemma ByOrderAndIdIsOrder()
    ensures StrictWeakOrder(ByOrderAndId)
  {
    forall x: Topic ensures !ByOrderAndId(x, x) {
      LessTotal(x.fields.id, x.fields.id);
    }
    forall x: Topic, y: Topic, z: Topic ensures ByOrderAndId(x, y) && ByOrderAndId(y, z) ==> ByOrderAndId(x, z) {
      LessTransitive(x.fields.id, y.fields.id, z.fields.id);
    }
    forall x: Topic, y: Topic, z: Topic ensures ByOrderAndId(x, z) ==> ByOrderAndId(x, y) || ByOrderAndId(y, z) {
      LessTotal(x.fields.id, y.fields.id);
      LessTransitive(y.fields.id, x.fields.id, z.fields.id);
    }
  }

  /** The index lists exactly the topics meant for the audience and the plan, by order and then id. */
  lemma IndexLists(topics: seq<Topic>, plan: string, audience: string)
    ensures var index := AuthorizedTopics(topics, plan, audience);
            && (forall t :: t in index <==> t in topics && t.fields.audience == audience && plan in t.fields.plans)
            && (forall i, j :: 0 <= i < j < |index| ==>
                  || index[i].fields.order < index[j].fields.order
                  || (index[i].fields.order == index[j].fields.order && !Less(index[j].fields.id, index[i].fields.id)))
  {
    var index := AuthorizedTopics(topics, plan, audience);
    SameElements(ByOrderAndId, Filter(x => Authorized(x, plan, audience), topics));
    ByOrderAndIdIsOrder();
    SortSorted(ByOrderAndId, Filter(x => Authorized(x, plan, audience), topics));
    forall i, j | 0 <= i < j < |index| ensures !ByOrderAndId(index[j], index[i]) {
    }
  }

  /** A topic without its localized text and its tour. */
  function Core(t: Topic): Topic {
    Topic(t.fields.(title := "", summary := "", searchTags := [], synonyms := [], body := ""), None)
  }

  lemma SameSelection(en: seq<Topic>, es: seq<Topic>, keep: Topic -> bool)
    requires Map(Core, en) == Map(Core, es) && forall t :: keep(t) <==> keep(Core(t))
    ensures Map(Core, Sort(ByOrderAndId, Filter(keep, en))) == Map(Core, Sort(ByOrderAndId, Filter(keep, es)))
  {
    FilterMap(Core, keep, keep, en);
    FilterMap(Core, keep, keep, es);
    SortMap(ByOrderAndId, ByOrderAndId, Core, Filter(keep, en));
    SortMap(ByOrderAndId, ByOrderAndId, Core, Filter(keep, es));
  }

  /** Mirrored editions have the same index in both languages, for every plan and audience. */
  lemma IndexParity(rules: Rules, en: seq<Topic>, es: seq<Topic>, plan: string, audience: string)
    requires Mirrored(rules, en, es)
    ensures Map(Core, AuthorizedTopics(en, plan, audience)) == Map(Core, AuthorizedTopics(es, plan, audience))
  {
    forall i | 0 <= i < |en| ensures Core(en[i]) == Core(es[i]) {
      assert SameMetadata(rules, en[i], es[i]);
    }
    SameSelection(en, es, t => Authorized(t, plan, audience));
  }

  lemma {:induction false} FirstNamedIs(releases: seq<Release>, name: Option<string>)
    ensures FirstNamed(releases, name).Some? <==>
              exists i :: 0 <= i < |releases| && (name.None? || releases[i].releaseId == name.value)
    ensures FirstNamed(releases, name).Some? ==>
              var r := FirstNamed(releases, name).value;
              r in releases && (name.None? || r.releaseId == name.value)
  {
    if releases != [] && !(name.None? || releases[0].releaseId == name.value) {
      FirstNamedIs(releases[1..], name);
      if i :| 0 <= i < |releases| && releases[i].releaseId == name.value {
        assert releases[1..][i - 1] == releases[i];
      }
    }
  }

  // ---- One edition ----

  ghost predicate SoundEdition(topics: seq<Topic>, releases: seq<Release>) {
    && SortedById(topics)
    && Releases(topics, releases)
    && forall t, tour :: t in topics && tour in Tours(t) ==> SoundTour(t, tour)
  }

  lemma EditionIsSound(rules: Rules, drafts: seq<Draft>, topics: seq<Topic>, releases: seq<Release>)
    requires Edition(rules, drafts, topics, releases)
    ensures SoundEdition(topics, releases)
  {
    CompiledLocaleSorted(drafts);
    forall t, tour | t in topics && tour in Tours(t) ensures SoundTour(t, tour) {
      TourOfValidTopic(rules, drafts, t, tour);
    }
  }

  lemma PublishedIsSound(rules: Rules, source: map<string, seq<Draft>>, a: Artifact, locale: string)
    requires Published(rules, source, a)
    ensures SoundEdition(TopicsOf(a, locale), ReleasesOf(a, locale))
  {
    if locale in source {
      EditionIsSound(rules, source[locale], a.topics[locale], a.releases[locale]);
    } else {
      EmptyIsSound();
    }
  }

  lemma EmptyIsSound()
    ensures SoundEdition([], [])
  {
  }

  /** The step of a tour opens its own topic for that plan, on an admin route and an admin target. */
  ghost predicate Resolves(topics: seq<Topic>, plan: string, s: Step) {
    var found := FindTopic(topics, plan, s.topicId, "tenant_admin");
    && found.Some?
    && found.value.fields.id == s.topicId
    && s.route == found.value.fields.route && "/admin/" <= s.route
    && s.target in found.value.fields.helpTargets && !("client." <= s.target)
  }

  lemma StepResolves(topics: seq<Topic>, releases: seq<Release>, plan: string, r: Release, s: Step)
    requires SoundEdition(topics, releases) && r in releases && s in r.steps && plan in s.plans
    ensures Resolves(topics, plan, Shown(s))
  {
    var t, tour := StepOrigin(topics, r, s);
    assert SoundTour(t, tour);
    AuthorizedFound(topics, plan, "tenant_admin", t);
  }

  lemma ServesPlan(topics: seq<Topic>, r: Release, plan: string)
    requires Describes(r, topics)
    ensures plan in r.plans <==> exists s :: s in r.steps && plan in s.plans
  {
    assert plan in r.plans <==> plan in PlansOf(r.steps);
  }

  lemma EditionResolves(topics: seq<Topic>, releases: seq<Release>, plan: string, r: Release)
    requires SoundEdition(topics, releases) && r in releases && plan in r.plans
    ensures ForPlan(r, plan).steps != []
    ensures forall s :: s in ForPlan(r, plan).steps ==> Resolves(topics, plan, s)
  {
    var kept := Filter(IsFor(plan), r.steps);
    ServesPlan(topics, r, plan);
    var one :| one in r.steps && plan in one.plans;
    assert one in kept;
    forall s | s in Map(Shown, kept) ensures Resolves(topics, plan, s) {
      var i :| 0 <= i < |kept| && Map(Shown, kept)[i] == s;
      assert kept[i] in kept;
      StepResolves(topics, releases, plan, r, kept[i]);
    }
  }

  /** A topic of the edition has a tour entry for the plan, in the named release if one is named. */
  ghost predicate Offered(topics: seq<Topic>, plan: string, name: Option<string>) {
    exists t, tour ::
      && t in topics && tour in Tours(t) && plan in tour.plans
      && (name.None? || tour.releaseId == name.value)
  }

  lemma ServedIsOffered(topics: seq<Topic>, releases: seq<Release>, plan: string, name: Option<string>)
    requires Releases(topics, releases) && TourRelease(releases, plan, name).Some?
    ensures Offered(topics, plan, name)
  {
    FirstNamedIs(TourReleases(releases, plan), name);
    var r := FirstNamed(TourReleases(releases, plan), name).value;
    assert r in releases;
    ServesPlan(topics, r, plan);
    var s :| s in r.steps && plan in s.plans;
    var t, tour := StepOrigin(topics, r, s);
  }

  lemma OfferedIsServed(topics: seq<Topic>, releases: seq<Release>, plan: string, name: Option<string>)
    requires Releases(topics, releases) && Offered(topics, plan, name)
    ensures TourRelease(releases, plan, name).Some?
  {
    var t, tour :|
      && t in topics && tour in Tours(t) && plan in tour.plans
      && (name.None? || tour.releaseId == name.value);
    var i := StepPlaced(topics, releases, t, tour);
    StepServes(topics, releases[i], StepOf(t, tour), plan);
    ServedByName(releases, releases[i], plan, name);
  }

  lemma StepServes(topics: seq<Topic>, r: Release, s: Step, plan: string)
    requires Describes(r, topics) && s in r.steps && plan in s.plans
    ensures plan in r.plans
  {
    ServesPlan(topics, r, plan);
  }

  lemma ServedByName(releases: seq<Release>, r: Release, plan: string, name: Option<string>)
    requires r in releases && plan in r.plans && (name.None? || r.releaseId == name.value)
    ensures TourRelease(releases, plan, name).Some?
  {
    var served := TourReleases(releases, plan);
    assert r in served;
    var k :| 0 <= k < |served| && served[k] == r;
    FirstNamedIs(served, name);
  }

  // ---- The published artifact ----

  /** Whatever release is selected for a locale and plan, it has a step, and every step resolves for that plan. */
  lemma SelectedTourResolves(rules: Rules, source: map<string, seq<Draft>>, a: Artifact, locale: string, plan: string,
                             name: Option<string>)
    requires Published(rules, source, a)
    requires TourRelease(ReleasesOf(a, locale), plan, name).Some?
    ensures var tour := TourRelease(ReleasesOf(a, locale), plan, name).value;
            tour.steps != [] && forall s :: s in tour.steps ==> Resolves(TopicsOf(a, locale), plan, s)
  {
    PublishedIsSound(rules, source, a, locale);
    FirstNamedIs(TourReleases(ReleasesOf(a, locale), plan), name);
    EditionResolves(TopicsOf(a, locale), ReleasesOf(a, locale), plan,
                    FirstNamed(TourReleases(ReleasesOf(a, locale), plan), name).value);
  }

  /** `s` is one of these steps, meant for the plan, without its plans. */
  ghost predicate ShownFor(steps: seq<Step>, plan: string, s: Step) {
    exists x :: x in steps && plan in x.plans && s == x.(plans := [])
  }

  /** `tour` shows exactly the steps of `r` for the plan, each without its plans, in their order. */
  ghost predicate Shows(r: Release, plan: string, tour: Release) {
    && tour.releaseId == r.releaseId && tour.plans == r.plans
    && (forall s :: s in tour.steps <==> ShownFor(r.steps, plan, s))
    && (forall i, j :: 0 <= i < j < |tour.steps| ==> tour.steps[i].order < tour.steps[j].order)
  }

  lemma NumberedAscend(steps: seq<Step>)
    requires forall i :: 0 <= i < |steps| ==> steps[i].order == i + 1
    ensures Ascending(OrderOf, steps)
  {
  }

  lemma ShownAscend(steps: seq<Step>)
    requires Ascending(OrderOf, steps)
    ensures var shown := Map(Shown, steps);
            forall i, j :: 0 <= i < j < |shown| ==> shown[i].order < shown[j].order
  {
    forall i, j | 0 <= i < j < |steps| ensures Map(Shown, steps)[i].order < Map(Shown, steps)[j].order {
      assert OrderOf(steps[i]) < OrderOf(steps[j]);
    }
  }

  lemma ShownFrom(steps: seq<Step>, plan: string)
    ensures var shown := Map(Shown, Filter(IsFor(plan), steps));
            forall s :: s in shown <==> ShownFor(steps, plan, s)
  {
    var kept := Filter(IsFor(plan), steps);
    forall s ensures s in Map(Shown, kept) <==> ShownFor(steps, plan, s) {
      InImage(Shown, kept, s);
    }
  }

  lemma ForPlanShows(r: Release, plan: string)
    requires forall i :: 0 <= i < |r.steps| ==> r.steps[i].order == i + 1
    ensures Shows(r, plan, ForPlan(r, plan))
  {
    NumberedAscend(r.steps);
    FilterAscending(OrderOf, IsFor(plan), r.steps);
    ShownAscend(Filter(IsFor(plan), r.steps));
    ShownFrom(r.steps, plan);
  }

  /**
   What a tenant is shown: the steps for its plan, no more and no fewer, of a release that serves the
   plan and has the name asked for.
   */
  lemma SelectedTourShows(source: map<string, seq<Draft>>, a: Artifact, locale: string, plan: string,
                          name: Option<string>) returns (r: Release)
    requires Authored(source, a)
    requires TourRelease(ReleasesOf(a, locale), plan, name).Some?
    ensures r in ReleasesOf(a, locale) && plan in r.plans && (name.None? || r.releaseId == name.value)
    ensures Shows(r, plan, TourRelease(ReleasesOf(a, locale), plan, name).value)
  {
    FirstNamedIs(TourReleases(ReleasesOf(a, locale), plan), name);
    r := FirstNamed(TourReleases(ReleasesOf(a, locale), plan), name).value;
    assert locale in source ==> AuthoredEditions()(source[locale], a.topics[locale], a.releases[locale]);
    ForPlanShows(r, plan);
  }

  /** A tour is served exactly when some topic offers it: nothing is lost between authoring and lookup. */
  lemma TourServedIffOffered(rules: Rules, source: map<string, seq<Draft>>, a: Artifact, locale: string, plan: string,
                             name: Option<string>)
    requires Published(rules, source, a)
    ensures TourRelease(ReleasesOf(a, locale), plan, name).Some? <==> Offered(TopicsOf(a, locale), plan, name)
  {
    PublishedIsSound(rules, source, a, locale);
    if TourRelease(ReleasesOf(a, locale), plan, name).Some? {
      ServedIsOffered(TopicsOf(a, locale), ReleasesOf(a, locale), plan, name);
    }
    if Offered(TopicsOf(a, locale), plan, name) {
      OfferedIsServed(TopicsOf(a, locale), ReleasesOf(a, locale), plan, name);
    }
  }

  /** Without a name the release with the least name is selected among those that serve the plan. */
  lemma DefaultTourIsFirst(topics: seq<Topic>, releases: seq<Release>, plan: string, r: Release)
    requires Releases(topics, releases) && r in releases && plan in r.plans
    ensures TourRelease(releases, plan, None).Some?
    ensures var first := TourRelease(releases, plan, None).value.releaseId;
            first == r.releaseId || Less(first, r.releaseId)
  {
    var served := TourReleases(releases, plan);
    assert r in served;
    FilterNamesAscending(releases, (x: Release) => plan in x.plans);
    var k :| 0 <= k < |served| && served[k] == r;
    if k > 0 {
      assert Less(Map(ReleaseName, served)[0], Map(ReleaseName, served)[k]);
    }
  }

  lemma {:induction false} FilterNamesAscending(releases: seq<Release>, keep: Release -> bool)
    requires StrictlyAscending(Less, Map(ReleaseName, releases))
    ensures StrictlyAscending(Less, Map(ReleaseName, Filter(keep, releases)))
  {
    if releases != [] {
      var names := Map(ReleaseName, releases);
      assert Map(ReleaseName, releases[1..]) == names[1..];
      FilterNamesAscending(releases[1..], keep);
      var rest := Filter(keep, releases[1..]);
      forall j | 0 <= j < |rest| ensures Less(releases[0].releaseId, rest[j].releaseId) {
        assert rest[j] in releases[1..];
        var i :| 0 <= i < |releases[1..]| && releases[1..][i] == rest[j];
        assert names[i + 1] == rest[j].releaseId;
      }
    }
  }
}
