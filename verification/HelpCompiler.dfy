/**
 The Help compiler, from already parsed pages to the published artifact
 (backend/app/help/compiler.py).  Vocabulary checks, regular expressions and Markdown links
 are the functions of `Rules`.
 */
module HelpCompiler {
  import opened Common
  import opened Sorting
  import opened Text

  datatype Result<+T> = Ok(value: T) | Err(error: Failure)

  datatype Failure =
    | UnknownLocales
    | MissingLocale(locale: string)
    | NoTopics
    | InvalidTopic(id: string)
    | DuplicateId(id: string)
    | IdParity
    | MetadataParity(id: string)
    | UnknownRelated(id: string)
    | TooManyOrRepeated(releaseId: string)
    | NotNumberedFromOne(releaseId: string)
    | ReleaseParity

  datatype Navigation = Navigation(route: string, settingsCategory: Option<string>, tab: Option<string>)

  datatype Fields = Fields(
    id: string, audience: string, plans: seq<string>, channels: seq<string>, area: string,
    capabilities: seq<string>, route: string, helpTargets: seq<string>, title: string, summary: string,
    searchTags: seq<string>, synonyms: seq<string>, relatedTopics: seq<string>, order: int,
    safeNavigation: Navigation, safeLinks: seq<Navigation>, body: string)

  /** One tour entry as written; plans fall back to the plans of the topic. */
  datatype DraftTour = DraftTour(
    releaseId: string, order: int, target: string, conditional: bool, plans: Option<seq<string>>,
    title: Option<string>, content: Option<string>)

  datatype Draft = Draft(fields: Fields, tour: Option<seq<DraftTour>>)

  datatype Tour = Tour(
    releaseId: string, order: int, target: string, conditional: bool, plans: seq<string>,
    title: Option<string>, content: Option<string>)

  datatype Topic = Topic(fields: Fields, tour: Option<seq<Tour>>)

  datatype Step = Step(
    topicId: string, relatedTopics: seq<string>, title: string, content: string, summary: string, route: string,
    settingsCategory: Option<string>, target: string, conditional: bool, order: int, plans: seq<string>)

  /** A step together with the release it belongs to. */
  datatype Entry = Entry(releaseId: string, step: Step)

  datatype Release = Release(releaseId: string, plans: seq<string>, steps: seq<Step>)

  datatype Artifact = Artifact(topics: map<string, seq<Topic>>, releases: map<string, seq<Release>>)

  /** What is not spelled out: field vocabularies and unsafe content, release names, blank text, links of a body. */
  datatype Rules = Rules(
    wellFormed: Fields -> bool, releaseName: string -> bool, blank: string -> bool, links: string -> set<string>)

  const PLANS: set<string> := {"starter", "pro"}
  const LOCALES: set<string> := {"en", "es"}
  const MAX_STEPS := 7

  // ---- Topics ----

  function TourPlans(d: DraftTour, topicPlans: seq<string>): seq<string> {
    if d.plans.Some? then d.plans.value else topicPlans
  }

  predicate ValidTour(rules: Rules, d: DraftTour, targets: seq<string>, topicPlans: seq<string>) {
    && rules.releaseName(d.releaseId)
    && d.order >= 1
    && d.target in targets
    && TourPlans(d, topicPlans) != []
    && (forall p :: p in TourPlans(d, topicPlans) ==> p in PLANS && p in topicPlans)
    && (d.title.Some? ==> !rules.blank(d.title.value))
    && (d.content.Some? ==> !rules.blank(d.content.value))
  }

  function CompiledTour(d: DraftTour, topicPlans: seq<string>): Tour {
    Tour(d.releaseId, d.order, d.target, d.conditional, TourPlans(d, topicPlans), d.title, d.content)
  }

  ghost predicate ValidTours(rules: Rules, tour: Option<seq<DraftTour>>, targets: seq<string>,
                             topicPlans: seq<string>)
  {
    tour.Some? ==>
      && tour.value != []
      && forall i :: 0 <= i < |tour.value| ==> ValidTour(rules, tour.value[i], targets, topicPlans)
  }

  function CompiledTours(tour: Option<seq<DraftTour>>, topicPlans: seq<string>): Option<seq<Tour>> {
    if tour.None? then None else Some(Map(d => CompiledTour(d, topicPlans), tour.value))
  }

  /** The rules of one topic that decide who may see it and where its tour leads. */
  predicate ValidFields(rules: Rules, f: Fields) {
    && f.audience in {"tenant_admin", "client"}
    && f.plans != [] && (forall p :: p in f.plans ==> p in PLANS)
    && (f.audience == "tenant_admin" ==> "/admin/" <= f.route)
    && (f.audience == "client" ==> "/client/" <= f.route)
    && (f.audience == "tenant_admin" ==> forall t :: t in f.helpTargets ==> !("client." <= t))
    && (f.audience == "client" ==> forall t :: t in f.helpTargets ==> "client." <= t)
    && f.order >= 1
    && rules.wellFormed(f)
  }

  ghost predicate ValidTopic(rules: Rules, d: Draft) {
    && ValidFields(rules, d.fields)
    && (d.fields.audience == "client" ==> d.tour.None?)
    && ValidTours(rules, d.tour, d.fields.helpTargets, d.fields.plans)
  }

  // ---- The ways a page can break these rules ----

  predicate Plan(p: string) { p == "starter" || p == "pro" }

  /** The plans an entry is for: its own, or those of its page. */
  predicate MeantFor(d: DraftTour, topicPlans: seq<string>, plans: seq<string>) {
    d.plans == Some(plans) || (d.plans.None? && plans == topicPlans)
  }

  ghost predicate TourFault(rules: Rules, d: DraftTour, targets: seq<string>, topicPlans: seq<string>) {
    || !rules.releaseName(d.releaseId) || d.order <= 0 || d.target !in targets
    || MeantFor(d, topicPlans, [])
    || (exists plans, p :: MeantFor(d, topicPlans, plans) && p in plans && !(Plan(p) && p in topicPlans))
    || (exists text :: (d.title == Some(text) || d.content == Some(text)) && rules.blank(text))
  }

  ghost predicate FieldFault(rules: Rules, f: Fields) {
    || f.order <= 0 || f.plans == [] || (exists p :: p in f.plans && !Plan(p)) || !rules.wellFormed(f)
    || match f.audience
       case "tenant_admin" => !("/admin/" <= f.route) || exists t :: t in f.helpTargets && "client." <= t
       case "client" => !("/client/" <= f.route) || exists t :: t in f.helpTargets && !("client." <= t)
       case _ => true
  }

  ghost predicate TopicFault(rules: Rules, d: Draft) {
    || FieldFault(rules, d.fields)
    || (d.tour.Some? && (d.fields.audience == "client" || d.tour.value == []
                         || exists e :: e in d.tour.value && TourFault(rules, e, d.fields.helpTargets, d.fields.plans)))
  }

  lemma TourFaultIff(rules: Rules, d: DraftTour, targets: seq<string>, topicPlans: seq<string>)
    ensures TourFault(rules, d, targets, topicPlans) <==> !ValidTour(rules, d, targets, topicPlans)
  {
    var plans := TourPlans(d, topicPlans);
    assert MeantFor(d, topicPlans, plans) && forall q :: MeantFor(d, topicPlans, q) ==> q == plans;
  }

  lemma FieldFaultIff(rules: Rules, f: Fields)
    ensures FieldFault(rules, f) <==> !ValidFields(rules, f)
  {
  }

  /** A page is refused exactly when it breaks one of the rules. */
  lemma TopicFaultIff(rules: Rules, d: Draft)
    ensures TopicFault(rules, d) <==> !ValidTopic(rules, d)
  {
    FieldFaultIff(rules, d.fields);
    forall e: DraftTour
      ensures TourFault(rules, e, d.fields.helpTargets, d.fields.plans) <==>
              !ValidTour(rules, e, d.fields.helpTargets, d.fields.plans)
    {
      TourFaultIff(rules, e, d.fields.helpTargets, d.fields.plans);
    }
  }

  function CompiledTopic(d: Draft): Topic {
    Topic(d.fields, CompiledTours(d.tour, d.fields.plans))
  }

  method TourEntries(rules: Rules, tour: Option<seq<DraftTour>>, targets: seq<string>, topicPlans: seq<string>)
    returns (r: Option<Option<seq<Tour>>>)
    ensures r.Some? <==> ValidTours(rules, tour, targets, topicPlans)
    ensures r.Some? ==> r.value == CompiledTours(tour, topicPlans)
  {
    if tour.None? {
      return Some(None);
    }
    var entries := tour.value;
    if entries == [] {
      return None;
    }
    var validated := [];
    for i := 0 to |entries|
      invariant |validated| == i
      invariant forall k :: 0 <= k < i ==> ValidTour(rules, entries[k], targets, topicPlans)
      invariant forall k :: 0 <= k < i ==> validated[k] == CompiledTour(entries[k], topicPlans)
    {
      if !ValidTour(rules, entries[i], targets, topicPlans) {
        return None;
      }
      validated := validated + [CompiledTour(entries[i], topicPlans)];
    }
    assert validated == CompiledTours(tour, topicPlans).value;
    return Some(Some(validated));
  }

  method CompileTopic(rules: Rules, d: Draft) returns (r: Result<Topic>)
    ensures r.Ok? <==> ValidTopic(rules, d)
    ensures r == if ValidTopic(rules, d) then Ok(CompiledTopic(d)) else Err(InvalidTopic(d.fields.id))
  {
    if !ValidFields(rules, d.fields) || (d.fields.audience == "client" && d.tour.Some?) {
      return Err(InvalidTopic(d.fields.id));
    }
    var tour := TourEntries(rules, d.tour, d.fields.helpTargets, d.fields.plans);
    if tour.None? {
      return Err(InvalidTopic(d.fields.id));
    }
    return Ok(Topic(d.fields, tour.value));
  }

  // ---- One locale ----

  predicate ById(a: Topic, b: Topic) {
    Less(a.fields.id, b.fields.id)
  }

  ghost predicate DistinctIds(drafts: seq<Draft>) {
    forall i, j :: 0 <= i < j < |drafts| ==> drafts[i].fields.id != drafts[j].fields.id
  }

  ghost predicate ValidLocale(rules: Rules, drafts: seq<Draft>) {
    && drafts != []
    && (forall i :: 0 <= i < |drafts| ==> ValidTopic(rules, drafts[i]))
    && DistinctIds(drafts)
  }

  function CompiledLocale(drafts: seq<Draft>): seq<Topic> {
    Sort(ById, Map(CompiledTopic, drafts))
  }

  function Ids(topics: seq<Topic>): set<string> {
    set t | t in topics :: t.fields.id
  }

  lemma SortKeepsIds(topics: seq<Topic>)
    ensures Ids(Sort(ById, topics)) == Ids(topics)
  {
    SameElements(ById, topics);
  }

  /** The first `i` drafts are valid with different ids, and `topics` and `ids` are what was made of them. */
  ghost predicate Prefix(rules: Rules, drafts: seq<Draft>, i: nat, topics: seq<Topic>, ids: set<string>)
    requires i <= |drafts|
  {
    && (forall k :: 0 <= k < i ==> ValidTopic(rules, drafts[k]))
    && DistinctIds(drafts[..i])
    && topics == Map(CompiledTopic, drafts[..i])
    && ids == Ids(topics)
  }

  lemma PrefixGrows(rules: Rules, drafts: seq<Draft>, i: nat, topics: seq<Topic>, ids: set<string>)
    requires i < |drafts| && Prefix(rules, drafts, i, topics, ids)
    requires ValidTopic(rules, drafts[i]) && drafts[i].fields.id !in ids
    ensures Prefix(rules, drafts, i + 1, topics + [CompiledTopic(drafts[i])], ids + {drafts[i].fields.id})
  {
    var longer := drafts[..i + 1];
    forall a, b | 0 <= a < b < |longer| ensures longer[a].fields.id != longer[b].fields.id {
      assert topics[a].fields.id in ids;
      assert b < i ==> drafts[..i][a].fields.id != drafts[..i][b].fields.id;
    }
    assert topics + [CompiledTopic(drafts[i])] == Map(CompiledTopic, drafts[..i + 1]);
    assert Ids(topics + [CompiledTopic(drafts[i])]) == ids + {drafts[i].fields.id};
  }

  lemma PrefixClashes(rules: Rules, drafts: seq<Draft>, i: nat, topics: seq<Topic>, ids: set<string>)
    requires i < |drafts| && Prefix(rules, drafts, i, topics, ids) && drafts[i].fields.id in ids
    ensures !DistinctIds(drafts)
  {
    var t :| t in topics && t.fields.id == drafts[i].fields.id;
    var k :| 0 <= k < |topics| && topics[k] == t;
    assert drafts[k].fields.id == drafts[i].fields.id;
  }

  method CompileLocale(rules: Rules, drafts: seq<Draft>) returns (r: Result<seq<Topic>>, ids: set<string>)
    ensures r.Ok? <==> ValidLocale(rules, drafts)
    ensures r.Ok? ==> r.value == CompiledLocale(drafts) && ids == Ids(r.value)
    ensures r.Err? ==> r.error.NoTopics? || r.error.InvalidTopic? || r.error.DuplicateId?
  {
    ids := {};
    if drafts == [] {
      return Err(NoTopics), ids;
    }
    var topics: seq<Topic> := [];
    for i := 0 to |drafts|
      invariant Prefix(rules, drafts, i, topics, ids)
    {
      var topic := CompileTopic(rules, drafts[i]);
      if topic.Err? {
        return Err(topic.error), ids;
      }
      var id := topic.value.fields.id;
      if id in ids {
        PrefixClashes(rules, drafts, i, topics, ids);
        return Err(DuplicateId(id)), ids;
      }
      PrefixGrows(rules, drafts, i, topics, ids);
      ids := ids + {id};
      topics := topics + [topic.value];
    }
    assert drafts[..|drafts|] == drafts;
    SortKeepsIds(topics);
    r := Ok(Sort(ById, topics));
  }

  /** A sorted locale: strictly ascending ids. */
  ghost predicate SortedById(topics: seq<Topic>) {
    StrictlyAscending(ById, topics)
  }

  lemma ByIdIsOrder()
    ensures StrictWeakOrder(ById)
  {
    LessIsOrder();
  }

  lemma CompiledLocaleSorted(drafts: seq<Draft>)
    requires DistinctIds(drafts)
    ensures SortedById(CompiledLocale(drafts))
  {
    ByIdIsOrder();
    var topics := Map(CompiledTopic, drafts);
    forall i, j | 0 <= i < j < |topics| ensures ById(topics[i], topics[j]) || ById(topics[j], topics[i]) {
      LessTotal(drafts[i].fields.id, drafts[j].fields.id);
    }
    SortStrict(ById, topics);
  }

  lemma InCompiledLocale(drafts: seq<Draft>, t: Topic)
    ensures t in CompiledLocale(drafts) <==> exists i :: 0 <= i < |drafts| && t == CompiledTopic(drafts[i])
  {
    SameElements(ById, Map(CompiledTopic, drafts));
    forall i | 0 <= i < |drafts| ensures CompiledTopic(drafts[i]) in Map(CompiledTopic, drafts) {
      assert Map(CompiledTopic, drafts)[i] == CompiledTopic(drafts[i]);
    }
  }

  // ---- Parity of metadata ----

  datatype TourKey = TourKey(releaseId: string, order: int, target: string, conditional: bool, plans: seq<string>)

  function KeyOf(t: Tour): TourKey {
    TourKey(t.releaseId, t.order, t.target, t.conditional, t.plans)
  }

  function TourContract(tour: Option<seq<Tour>>): Option<seq<TourKey>> {
    if tour.None? then None else Some(Map(KeyOf, tour.value))
  }

  predicate SameMetadata(rules: Rules, a: Topic, b: Topic) {
    && a.fields.(title := b.fields.title, summary := b.fields.summary, searchTags := b.fields.searchTags,
                 synonyms := b.fields.synonyms, body := b.fields.body) == b.fields
    && TourContract(a.tour) == TourContract(b.tour)
    && rules.links(a.fields.body) == rules.links(b.fields.body)
  }

  /** What two editions of a page may differ in: title, summary, search terms, body, and tour texts. */
  ghost predicate SameContract(rules: Rules, a: Fields, b: Fields) {
    && a.id == b.id && a.audience == b.audience && a.plans == b.plans && a.channels == b.channels
    && a.area == b.area && a.capabilities == b.capabilities && a.route == b.route
    && a.helpTargets == b.helpTargets && a.relatedTopics == b.relatedTopics && a.order == b.order
    && a.safeNavigation == b.safeNavigation && a.safeLinks == b.safeLinks
    && rules.links(a.body) == rules.links(b.body)
  }

  ghost predicate SameEntry(a: Tour, b: Tour) {
    && a.releaseId == b.releaseId && a.order == b.order && a.target == b.target
    && a.conditional == b.conditional && a.plans == b.plans
  }

  lemma SameMetadataIff(rules: Rules, a: Topic, b: Topic)
    ensures SameMetadata(rules, a, b) <==>
              && SameContract(rules, a.fields, b.fields) && (a.tour.Some? <==> b.tour.Some?)
              && (a.tour.Some? && b.tour.Some? ==>
                    && |a.tour.value| == |b.tour.value|
                    && forall i :: 0 <= i < |a.tour.value| ==> SameEntry(a.tour.value[i], b.tour.value[i]))
  {
    if a.tour.Some? && b.tour.Some? {
      var x, y := a.tour.value, b.tour.value;
      assert TourContract(a.tour) == TourContract(b.tour) <==> Map(KeyOf, x) == Map(KeyOf, y);
      if Map(KeyOf, x) == Map(KeyOf, y) {
        assert |Map(KeyOf, x)| == |Map(KeyOf, y)|;
        forall i | 0 <= i < |x| ensures SameEntry(x[i], y[i]) {
          assert Map(KeyOf, x)[i] == Map(KeyOf, y)[i];
        }
      }
    }
  }

  method IndexById(topics: seq<Topic>) returns (byId: map<string, Topic>)
    requires SortedById(topics)
    ensures byId.Keys == Ids(topics)
    ensures forall i :: 0 <= i < |topics| ==> topics[i].fields.id in byId && byId[topics[i].fields.id] == topics[i]
  {
    byId := map[];
    for i := 0 to |topics|
      invariant byId.Keys == set t | t in topics[..i] :: t.fields.id
      invariant forall k :: 0 <= k < i ==> topics[k].fields.id in byId && byId[topics[k].fields.id] == topics[k]
    {
      forall k | 0 <= k < i ensures topics[k].fields.id != topics[i].fields.id {
        assert ById(topics[k], topics[i]);
        LessTotal(topics[k].fields.id, topics[k].fields.id);
      }
      assert topics[..i + 1] == topics[..i] + [topics[i]];
      byId := byId[topics[i].fields.id := topics[i]];
    }
    assert topics[..|topics|] == topics;
  }

  /** The two editions line up topic by topic. */
  ghost predicate Mirrored(rules: Rules, en: seq<Topic>, es: seq<Topic>) {
    |en| == |es| && forall i :: 0 <= i < |en| ==> SameMetadata(rules, en[i], es[i])
  }

  method ValidateMetadataParity(rules: Rules, en: seq<Topic>, es: seq<Topic>) returns (fault: Option<Failure>)
    requires SortedById(en) && SortedById(es) && Ids(en) == Ids(es)
    ensures fault.None? <==> Mirrored(rules, en, es)
    ensures fault.Some? ==> fault.value.MetadataParity?
  {
    var spanish := IndexById(es);
    SameIdsAlign(en, es);
    for i := 0 to |en|
      invariant forall k :: 0 <= k < i ==> SameMetadata(rules, en[k], es[k])
    {
      assert spanish[en[i].fields.id] == es[i] by {
        assert en[i].fields.id == es[i].fields.id;
      }
      if !SameMetadata(rules, en[i], spanish[en[i].fields.id]) {
        return Some(MetadataParity(en[i].fields.id));
      }
    }
    return None;
  }

  function TopicId(t: Topic): string { t.fields.id }

  /** Two editions sorted by id with the same ids have the same id at every position. */
  lemma SameIdsAlign(en: seq<Topic>, es: seq<Topic>)
    requires SortedById(en) && SortedById(es) && Ids(en) == Ids(es)
    ensures |en| == |es| && forall i :: 0 <= i < |en| ==> en[i].fields.id == es[i].fields.id
  {
    IdsListed(en);
    IdsListed(es);
    ListsUnique(Map(TopicId, en), Map(TopicId, es), Ids(en));
    forall i | 0 <= i < |en| ensures |en| == |es| && en[i].fields.id == es[i].fields.id {
      assert Map(TopicId, en)[i] == Map(TopicId, es)[i];
    }
  }

  lemma IdsListed(topics: seq<Topic>)
    requires SortedById(topics)
    ensures Lists(Map(TopicId, topics), Ids(topics))
  {
    var ks := Map(TopicId, topics);
    forall i, j | 0 <= i < j < |ks| ensures Less(ks[i], ks[j]) {
      assert ById(topics[i], topics[j]);
    }
    forall k | k in Ids(topics) ensures k in ks {
      var i :| 0 <= i < |topics| && topics[i].fields.id == k;
      assert ks[i] == k;
    }
  }

  // ---- Related topics ----

  ghost predicate RelatedKnown(topics: seq<Topic>, known: set<string>) {
    forall i, id :: 0 <= i < |topics| && id in topics[i].fields.relatedTopics ==> id in known
  }

  method RelatedOfEdition(topics: seq<Topic>, known: set<string>) returns (fault: Option<Failure>)
    ensures fault.None? <==> RelatedKnown(topics, known)
    ensures fault.Some? ==> fault.value.UnknownRelated?
  {
    for i := 0 to |topics|
      invariant RelatedKnown(topics[..i], known)
    {
      var unknown := set id | id in topics[i].fields.relatedTopics && id !in known;
      if unknown != {} {
        return Some(UnknownRelated(topics[i].fields.id));
      }
      assert forall id :: id in topics[i].fields.relatedTopics ==> id !in unknown ==> id in known;
      assert forall id :: id in topics[i].fields.relatedTopics ==> id in known;
    }
    return None;
  }

  method ValidateRelatedTopics(en: seq<Topic>, es: seq<Topic>) returns (fault: Option<Failure>)
    ensures fault.None? <==> RelatedKnown(en, Ids(en)) && RelatedKnown(es, Ids(en))
    ensures fault.Some? ==> fault.value.UnknownRelated?
  {
    var known := Ids(en);
    fault := RelatedOfEdition(en, known);
    if fault.None? {
      fault := RelatedOfEdition(es, known);
    }
  }

  // ---- Tour releases ----

  function StepOf(t: Topic, tour: Tour): Step {
    Step(t.fields.id, t.fields.relatedTopics,
         if tour.title.Some? then tour.title.value else t.fields.title,
         if tour.content.Some? then tour.content.value else t.fields.body,
         t.fields.summary, t.fields.route, t.fields.safeNavigation.settingsCategory,
         tour.target, tour.conditional, tour.order, tour.plans)
  }

  function Tours(t: Topic): seq<Tour> {
    if t.tour.None? then [] else t.tour.value
  }

  function EntryOf(t: Topic, tour: Tour): Entry {
    Entry(tour.releaseId, StepOf(t, tour))
  }

  function TopicEntries(t: Topic): seq<Entry> {
    Map(tour => EntryOf(t, tour), Tours(t))
  }

  /** Every tour entry of the edition, in the order of its topics. */
  function Entries(topics: seq<Topic>): seq<Entry> {
    Flatten(TopicEntries, topics)
  }

  function StepsOf(releaseId: string, entries: seq<Entry>): seq<Step> {
    if entries == [] then [] else
      var last := entries[|entries| - 1];
      StepsOf(releaseId, entries[..|entries| - 1]) + if last.releaseId == releaseId then [last.step] else []
  }

  lemma {:induction false} InStepsOf(releaseId: string, entries: seq<Entry>, s: Step)
    ensures s in StepsOf(releaseId, entries) <==> Entry(releaseId, s) in entries
  {
    if entries != [] {
      var n := |entries| - 1;
      InStepsOf(releaseId, entries[..n], s);
      assert entries == entries[..n] + [entries[n]];
    }
  }

  /** The dictionary of the first loop: exactly the releases that have steps, each with its own steps. */
  ghost predicate Grouped(groups: map<string, seq<Step>>, entries: seq<Entry>) {
    forall r: string ::
      && (r in groups <==> StepsOf(r, entries) != [])
      && (r in groups ==> groups[r] == StepsOf(r, entries))
  }

  lemma GroupedAppend(groups: map<string, seq<Step>>, entries: seq<Entry>, e: Entry)
    requires Grouped(groups, entries)
    ensures Grouped(groups[e.releaseId := (if e.releaseId in groups then groups[e.releaseId] else []) + [e.step]],
                    entries + [e])
  {
    assert (entries + [e])[..|entries|] == entries;
  }

  method GroupTopic(groups0: map<string, seq<Step>>, topic: Topic, ghost before: seq<Entry>)
    returns (groups: map<string, seq<Step>>)
    requires Grouped(groups0, before)
    ensures Grouped(groups, before + TopicEntries(topic))
  {
    groups := groups0;
    var tours := Tours(topic);
    ghost var added := TopicEntries(topic);
    assert before + added[..0] == before;
    for j := 0 to |tours|
      invariant Grouped(groups, before + added[..j])
    {
      var r, step := tours[j].releaseId, StepOf(topic, tours[j]);
      assert before + added[..j + 1] == before + added[..j] + [Entry(r, step)];
      GroupedAppend(groups, before + added[..j], Entry(r, step));
      groups := groups[r := (if r in groups then groups[r] else []) + [step]];
    }
    assert added[..|tours|] == added;
  }

  method GroupSteps(topics: seq<Topic>) returns (groups: map<string, seq<Step>>)
    ensures Grouped(groups, Entries(topics))
  {
    groups := map[];
    for i := 0 to |topics|
      invariant Grouped(groups, Entries(topics[..i]))
    {
      groups := GroupTopic(groups, topics[i], Entries(topics[..i]));
      assert topics[..i + 1][..i] == topics[..i];
    }
    assert topics[..|topics|] == topics;
  }

  predicate ByOrder(a: Step, b: Step) {
    a.order < b.order || (a.order == b.order && Less(a.topicId, b.topicId))
  }

  /** At most seven steps, numbered 1, 2, 3 and so on. */
  ghost predicate Numbered(steps: seq<Step>) {
    |steps| <= MAX_STEPS && forall i :: 0 <= i < |steps| ==> steps[i].order == i + 1
  }

  function Orders(steps: seq<Step>): set<int> {
    set s | s in steps :: s.order
  }

  lemma {:induction false} NumberedOrdersDistinct(steps: seq<Step>)
    requires forall i :: 0 <= i < |steps| ==> steps[i].order == i + 1
    ensures |Orders(steps)| == |steps|
  {
    if steps != [] {
      var n := |steps| - 1;
      NumberedOrdersDistinct(steps[..n]);
      assert steps == steps[..n] + [steps[n]];
      assert Orders(steps) == Orders(steps[..n]) + {n + 1};
    }
  }

  function OrderOf(s: Step): int { s.order }

  method CheckNumbering(releaseId: string, steps: seq<Step>) returns (fault: Option<Failure>)
    ensures fault.None? <==> Numbered(steps)
    ensures fault.Some? ==>
      fault.value == if |steps| > MAX_STEPS || |Orders(steps)| != |steps|
                     then TooManyOrRepeated(releaseId) else NotNumberedFromOne(releaseId)
  {
    if |steps| > MAX_STEPS || |Orders(steps)| != |steps| {
      if |steps| <= MAX_STEPS && Numbered(steps) {
        NumberedOrdersDistinct(steps);
      }
      return Some(TooManyOrRepeated(releaseId));
    }
    var orders, range := Map(OrderOf, steps), seq(|steps|, i => i + 1);
    if orders != range {
      return Some(NotNumberedFromOne(releaseId));
    }
    assert forall i :: 0 <= i < |steps| ==> steps[i].order == orders[i] == range[i];
    return None;
  }

  function PlansOf(steps: seq<Step>): set<string> {
    set s, p | s in steps && p in s.plans :: p
  }

  function ReleaseIds(entries: seq<Entry>): set<string> {
    set e | e in entries :: e.releaseId
  }

  /** `r` is the release made of one group of steps. */
  ghost predicate MadeOf(r: Release, name: string, group: seq<Step>) {
    && r.releaseId == name
    && r.steps == Sort(ByOrder, group)
    && Lists(r.plans, PlansOf(r.steps))
  }

  ghost predicate Orderly(group: seq<Step>) {
    Numbered(Sort(ByOrder, group))
  }

  /** `r` is the release of that name made of the edition's tour entries. */
  ghost predicate Describes(r: Release, topics: seq<Topic>) {
    MadeOf(r, r.releaseId, StepsOf(r.releaseId, Entries(topics)))
  }

  function ReleaseName(r: Release): string { r.releaseId }

  ghost predicate WellNumbered(topics: seq<Topic>) {
    forall r: string :: Orderly(StepsOf(r, Entries(topics)))
  }

  ghost predicate Releases(topics: seq<Topic>, releases: seq<Release>) {
    && Lists(Map(ReleaseName, releases), ReleaseIds(Entries(topics)))
    && forall i :: 0 <= i < |releases| ==> Describes(releases[i], topics)
  }

  lemma GroupKeys(groups: map<string, seq<Step>>, entries: seq<Entry>)
    requires Grouped(groups, entries)
    ensures groups.Keys == ReleaseIds(entries)
  {
    forall r: string ensures r in groups <==> r in ReleaseIds(entries) {
      if StepsOf(r, entries) != [] {
        InStepsOf(r, entries, StepsOf(r, entries)[0]);
        assert Entry(r, StepsOf(r, entries)[0]) in entries;
      }
      if r in ReleaseIds(entries) {
        var e :| e in entries && e.releaseId == r;
        InStepsOf(r, entries, e.step);
        assert e == Entry(r, e.step);
      }
    }
  }

  method CompileRelease(name: string, group: seq<Step>) returns (r: Result<Release>)
    ensures r.Ok? <==> Orderly(group)
    ensures r.Ok? ==> MadeOf(r.value, name, group)
    ensures r.Err? ==> r.error.TooManyOrRepeated? || r.error.NotNumberedFromOne?
  {
    var steps := Sort(ByOrder, group);
    var fault := CheckNumbering(name, steps);
    if fault.Some? {
      return Err(fault.value);
    }
    var plans := SortedSet(PlansOf(steps));
    return Ok(Release(name, plans, steps));
  }

  /** The second loop: one release per name, in the given order. */
  method CompileGroups(groups: map<string, seq<Step>>, names: seq<string>) returns (r: Result<seq<Release>>)
    requires forall k :: 0 <= k < |names| ==> names[k] in groups
    ensures r.Ok? <==> forall k :: 0 <= k < |names| ==> Orderly(groups[names[k]])
    ensures r.Ok? ==> |r.value| == |names|
    ensures r.Ok? ==> forall k :: 0 <= k < |names| ==> MadeOf(r.value[k], names[k], groups[names[k]])
    ensures r.Err? ==> r.error.TooManyOrRepeated? || r.error.NotNumberedFromOne?
  {
    var releases: seq<Release> := [];
    for i := 0 to |names|
      invariant |releases| == i
      invariant forall k :: 0 <= k < i ==> Orderly(groups[names[k]])
      invariant forall k :: 0 <= k < i ==> MadeOf(releases[k], names[k], groups[names[k]])
    {
      var release := CompileRelease(names[i], groups[names[i]]);
      if release.Err? {
        return Err(release.error);
      }
      releases := releases + [release.value];
    }
    return Ok(releases);
  }

  lemma WellNumberedGroups(groups: map<string, seq<Step>>, names: seq<string>, topics: seq<Topic>)
    requires Grouped(groups, Entries(topics)) && Lists(names, groups.Keys)
    ensures WellNumbered(topics) <==> forall k :: 0 <= k < |names| ==> Orderly(groups[names[k]])
  {
    assert forall k :: 0 <= k < |names| ==> names[k] in names;
    forall k | 0 <= k < |names| ensures StepsOf(names[k], Entries(topics)) == groups[names[k]] {
      assert names[k] in groups;
    }
    if forall k :: 0 <= k < |names| ==> Orderly(groups[names[k]]) {
      forall n: string ensures Orderly(StepsOf(n, Entries(topics))) {
        assert n in groups || StepsOf(n, Entries(topics)) == [];
        assert n in groups ==> n in names;
      }
    }
  }

  lemma GroupsMakeReleases(groups: map<string, seq<Step>>, names: seq<string>, topics: seq<Topic>,
        releases: seq<Release>)
    requires Grouped(groups, Entries(topics)) && Lists(names, groups.Keys)
    requires |releases| == |names| && forall k :: 0 <= k < |names| ==> names[k] in groups
    requires forall k :: 0 <= k < |names| ==> MadeOf(releases[k], names[k], groups[names[k]])
    ensures Releases(topics, releases)
  {
    GroupKeys(groups, Entries(topics));
    assert Map(ReleaseName, releases) == names;
    forall k | 0 <= k < |names| ensures Describes(releases[k], topics) {
      assert MadeOf(releases[k], names[k], groups[names[k]]);
    }
  }

  method CompileReleases(topics: seq<Topic>) returns (r: Result<seq<Release>>)
    ensures r.Ok? <==> WellNumbered(topics)
    ensures r.Ok? ==> Releases(topics, r.value)
    ensures r.Err? ==> r.error.TooManyOrRepeated? || r.error.NotNumberedFromOne?
  {
    var groups := GroupSteps(topics);
    var names := SortedSet(groups.Keys);
    assert forall k :: 0 <= k < |names| ==> names[k] in names;
    WellNumberedGroups(groups, names, topics);
    r := CompileGroups(groups, names);
    if r.Ok? {
      GroupsMakeReleases(groups, names, topics, r.value);
    }
  }

  /** Both editions, then the comparison of their release names. */
  method CompileTourReleases(en: seq<Topic>, es: seq<Topic>) returns (r: Result<(seq<Release>, seq<Release>)>)
    ensures r.Ok? ==> WellNumbered(en) && WellNumbered(es)
    ensures r.Ok? ==> Releases(en, r.value.0) && Releases(es, r.value.1)
    ensures r.Ok? ==> Map(ReleaseName, r.value.0) == Map(ReleaseName, r.value.1)
    ensures r.Err? && !r.error.ReleaseParity? ==> !WellNumbered(en) || !WellNumbered(es)
    ensures r.Err? && r.error.ReleaseParity? ==>
      exists a, b :: Releases(en, a) && Releases(es, b) && Map(ReleaseName, a) != Map(ReleaseName, b)
  {
    var english := CompileReleases(en);
    if english.Err? {
      return Err(english.error);
    }
    var spanish := CompileReleases(es);
    if spanish.Err? {
      return Err(spanish.error);
    }
    if Map(ReleaseName, english.value) != Map(ReleaseName, spanish.value) {
      return Err(ReleaseParity);
    }
    return Ok((english.value, spanish.value));
  }
}
