/**
 The tours of an edition in the authors' terms: which step every tour entry becomes, and when the
 numbering of a release is accepted, read off the entries themselves (backend/app/help/compiler.py).
 */
module HelpTours {
  import opened Common
  import opened Sorting
  import opened Text
  import opened HelpCompiler

  // ---- Where the steps of a release come from ----

  lemma TopicEntry(t: Topic, e: Entry) returns (tour: Tour)
    requires e in TopicEntries(t)
    ensures tour in Tours(t) && e == EntryOf(t, tour)
  {
    var i :| 0 <= i < |TopicEntries(t)| && TopicEntries(t)[i] == e;
    tour := Tours(t)[i];
  }

  /** Every step of a release is the step of a tour entry of one of the edition's topics. */
  lemma StepOrigin(topics: seq<Topic>, r: Release, s: Step) returns (t: Topic, tour: Tour)
    requires Describes(r, topics) && s in r.steps
    ensures t in topics && tour in Tours(t)
    ensures tour.releaseId == r.releaseId && s == StepOf(t, tour)
  {
    SameElements(ByOrder, StepsOf(r.releaseId, Entries(topics)));
    InStepsOf(r.releaseId, Entries(topics), s);
    InFlatten(TopicEntries, topics, Entry(r.releaseId, s));
    var i :| 0 <= i < |topics| && Entry(r.releaseId, s) in TopicEntries(topics[i]);
    t := topics[i];
    tour := TopicEntry(t, Entry(r.releaseId, s));
  }

  /** Conversely every tour entry is a step of a release of its name. */
  lemma StepPlaced(topics: seq<Topic>, releases: seq<Release>, t: Topic, tour: Tour) returns (i: nat)
    requires Releases(topics, releases) && t in topics && tour in Tours(t)
    ensures i < |releases| && releases[i].releaseId == tour.releaseId && StepOf(t, tour) in releases[i].steps
  {
    var e := EntryOf(t, tour);
    var j :| 0 <= j < |Tours(t)| && Tours(t)[j] == tour;
    assert TopicEntries(t)[j] == e;
    var k :| 0 <= k < |topics| && topics[k] == t;
    InFlatten(TopicEntries, topics, e);
    assert e.releaseId in ReleaseIds(Entries(topics));
    assert e.releaseId in Map(ReleaseName, releases);
    i :| 0 <= i < |releases| && Map(ReleaseName, releases)[i] == e.releaseId;
    InStepsOf(e.releaseId, Entries(topics), e.step);
    SameElements(ByOrder, StepsOf(e.releaseId, Entries(topics)));
  }

  // ---- From the authored entry to the published step ----

  /** `s` shows tour entry `e` of the page `d`: its own title, content and plans, or else those of the page. */
  ghost predicate Publishes(d: Draft, e: DraftTour, s: Step) {
    && s.topicId == d.fields.id && s.summary == d.fields.summary && s.route == d.fields.route
    && s.relatedTopics == d.fields.relatedTopics
    && s.settingsCategory == d.fields.safeNavigation.settingsCategory
    && s.order == e.order && s.target == e.target && s.conditional == e.conditional
    && (e.title == Some(s.title) || (e.title.None? && s.title == d.fields.title))
    && (e.content == Some(s.content) || (e.content.None? && s.content == d.fields.body))
    && (e.plans == Some(s.plans) || (e.plans.None? && s.plans == d.fields.plans))
  }

  function DraftTours(d: Draft): seq<DraftTour> {
    if d.tour.None? then [] else d.tour.value
  }

  ghost predicate PublishedIn(releases: seq<Release>, d: Draft, e: DraftTour) {
    exists r, s :: r in releases && r.releaseId == e.releaseId && s in r.steps && Publishes(d, e, s)
  }

  ghost predicate FromPage(drafts: seq<Draft>, r: Release, s: Step) {
    exists d, e :: d in drafts && e in DraftTours(d) && e.releaseId == r.releaseId && Publishes(d, e, s)
  }

  /** Every authored tour entry is a step of the release it names, and there are no other steps. */
  ghost predicate ToursPublished(drafts: seq<Draft>, releases: seq<Release>) {
    && (forall d, e :: d in drafts && e in DraftTours(d) ==> PublishedIn(releases, d, e))
    && (forall r, s :: r in releases && s in r.steps ==> FromPage(drafts, r, s))
  }

  lemma CompiledEntry(d: Draft, e: DraftTour)
    requires e in DraftTours(d)
    ensures CompiledTour(e, d.fields.plans) in Tours(CompiledTopic(d))
    ensures Publishes(d, e, StepOf(CompiledTopic(d), CompiledTour(e, d.fields.plans)))
  {
    var j :| 0 <= j < |DraftTours(d)| && DraftTours(d)[j] == e;
    assert Tours(CompiledTopic(d))[j] == CompiledTour(e, d.fields.plans);
  }

  lemma EntryOrigin(d: Draft, tour: Tour) returns (e: DraftTour)
    requires tour in Tours(CompiledTopic(d))
    ensures e in DraftTours(d) && tour == CompiledTour(e, d.fields.plans)
  {
    var j :| 0 <= j < |Tours(CompiledTopic(d))| && Tours(CompiledTopic(d))[j] == tour;
    e := DraftTours(d)[j];
  }

  lemma EntriesPublished(drafts: seq<Draft>, releases: seq<Release>, d: Draft, e: DraftTour)
    requires Releases(CompiledLocale(drafts), releases) && d in drafts && e in DraftTours(d)
    ensures PublishedIn(releases, d, e)
  {
    var t, tour := CompiledTopic(d), CompiledTour(e, d.fields.plans);
    InCompiledLocale(drafts, t);
    var k :| 0 <= k < |drafts| && drafts[k] == d;
    assert t == CompiledTopic(drafts[k]);
    CompiledEntry(d, e);
    var i := StepPlaced(CompiledLocale(drafts), releases, t, tour);
    assert releases[i] in releases;
  }

  lemma StepsAuthored(drafts: seq<Draft>, releases: seq<Release>, r: Release, s: Step)
    requires Releases(CompiledLocale(drafts), releases) && r in releases && s in r.steps
    ensures FromPage(drafts, r, s)
  {
    var t, tour := StepOrigin(CompiledLocale(drafts), r, s);
    InCompiledLocale(drafts, t);
    var k :| 0 <= k < |drafts| && t == CompiledTopic(drafts[k]);
    var e := EntryOrigin(drafts[k], tour);
    CompiledEntry(drafts[k], e);
    assert drafts[k] in drafts && e.releaseId == r.releaseId && Publishes(drafts[k], e, s);
  }

  lemma AllPublished(drafts: seq<Draft>, releases: seq<Release>)
    requires Releases(CompiledLocale(drafts), releases)
    ensures ToursPublished(drafts, releases)
  {
    forall d, e | d in drafts && e in DraftTours(d) ensures PublishedIn(releases, d, e) {
      EntriesPublished(drafts, releases, d, e);
    }
    forall r, s | r in releases && s in r.steps ensures FromPage(drafts, r, s) {
      StepsAuthored(drafts, releases, r, s);
    }
  }

  /** The topics of an edition are its pages, in ascending order of their ids. */
  ghost predicate TopicsPublished(drafts: seq<Draft>, topics: seq<Topic>) {
    && (set t | t in topics :: t.fields) == (set d | d in drafts :: d.fields)
    && (forall i, j :: 0 <= i < j < |topics| ==> Less(topics[i].fields.id, topics[j].fields.id))
  }

  lemma SamePages(drafts: seq<Draft>)
    ensures (set t | t in CompiledLocale(drafts) :: t.fields) == (set d | d in drafts :: d.fields)
  {
    forall d | d in drafts ensures d.fields in set t | t in CompiledLocale(drafts) :: t.fields {
      InCompiledLocale(drafts, CompiledTopic(d));
      var k :| 0 <= k < |drafts| && drafts[k] == d;
      assert CompiledTopic(drafts[k]) in CompiledLocale(drafts);
    }
    forall t | t in CompiledLocale(drafts) ensures t.fields in set d | d in drafts :: d.fields {
      InCompiledLocale(drafts, t);
      var k :| 0 <= k < |drafts| && t == CompiledTopic(drafts[k]);
      assert drafts[k] in drafts;
    }
  }

  lemma PagesPublished(drafts: seq<Draft>)
    requires DistinctIds(drafts)
    ensures TopicsPublished(drafts, CompiledLocale(drafts))
  {
    var topics := CompiledLocale(drafts);
    CompiledLocaleSorted(drafts);
    SamePages(drafts);
    forall i, j | 0 <= i < j < |topics| ensures Less(topics[i].fields.id, topics[j].fields.id) {
      assert ById(topics[i], topics[j]);
    }
  }

  /** Releases in ascending order of their names; each has steps numbered from one, and exactly their plans. */
  ghost predicate ReleasesInOrder(releases: seq<Release>) {
    && (forall i, j :: 0 <= i < j < |releases| ==> Less(releases[i].releaseId, releases[j].releaseId))
    && forall r :: r in releases ==>
         && 1 <= |r.steps| <= 7 && (forall i :: 0 <= i < |r.steps| ==> r.steps[i].order == i + 1)
         && (forall p :: p in r.plans <==> exists s :: s in r.steps && p in s.plans)
  }

  lemma ReleaseInOrder(topics: seq<Topic>, releases: seq<Release>, k: nat)
    requires Releases(topics, releases) && WellNumbered(topics) && k < |releases|
    ensures var r := releases[k];
            && 1 <= |r.steps| <= 7 && (forall i :: 0 <= i < |r.steps| ==> r.steps[i].order == i + 1)
            && (forall p :: p in r.plans <==> exists s :: s in r.steps && p in s.plans)
  {
    var r := releases[k];
    assert Describes(r, topics) && Orderly(StepsOf(r.releaseId, Entries(topics)));
    assert Map(ReleaseName, releases)[k] == r.releaseId;
    assert r.releaseId in ReleaseIds(Entries(topics));
    var e :| e in Entries(topics) && e.releaseId == r.releaseId;
    InStepsOf(r.releaseId, Entries(topics), e.step);
    assert e == Entry(r.releaseId, e.step);
    forall p ensures p in r.plans <==> exists s :: s in r.steps && p in s.plans {
      assert p in r.plans <==> p in PlansOf(r.steps);
    }
  }

  lemma AllInOrder(topics: seq<Topic>, releases: seq<Release>)
    requires Releases(topics, releases) && WellNumbered(topics)
    ensures ReleasesInOrder(releases)
  {
    forall i, j | 0 <= i < j < |releases| ensures Less(releases[i].releaseId, releases[j].releaseId) {
      assert Less(Map(ReleaseName, releases)[i], Map(ReleaseName, releases)[j]);
    }
    forall r | r in releases
      ensures 1 <= |r.steps| <= 7 && (forall i :: 0 <= i < |r.steps| ==> r.steps[i].order == i + 1)
      ensures forall p :: p in r.plans <==> exists s :: s in r.steps && p in s.plans
    {
      var k :| 0 <= k < |releases| && releases[k] == r;
      ReleaseInOrder(topics, releases, k);
    }
  }

  /** One edition of the artifact, in terms of the pages it was made of. */
  ghost predicate AuthoredEdition(drafts: seq<Draft>, topics: seq<Topic>, releases: seq<Release>) {
    TopicsPublished(drafts, topics) && ToursPublished(drafts, releases) && ReleasesInOrder(releases)
  }

  // ---- Numbering ----

  /** The orders that the entries of one release carry, one per entry, topic by topic. */
  ghost function TopicOrders(name: string, tours: seq<Tour>): seq<int> {
    if tours == [] then []
    else
      var last := tours[|tours| - 1];
      TopicOrders(name, tours[..|tours| - 1]) + if last.releaseId == name then [last.order] else []
  }

  ghost function TourOrders(name: string, topics: seq<Topic>): seq<int> {
    if topics == [] then []
    else TourOrders(name, topics[..|topics| - 1]) + TopicOrders(name, Tours(topics[|topics| - 1]))
  }

  /** At most seven numbers, and all from one up to how many there are: so each exactly once. */
  ghost predicate RunFromOne(orders: seq<int>) {
    |orders| <= 7 && forall k :: 1 <= k <= |orders| ==> k in orders
  }

  /** The entries of every release are numbered 1, 2, 3 and so on, up to seven. */
  ghost predicate ToursNumbered(topics: seq<Topic>) {
    forall name: string :: RunFromOne(TourOrders(name, topics))
  }

  lemma ByOrderIsOrder()
    ensures StrictWeakOrder(ByOrder)
  {
    forall x: Step ensures !ByOrder(x, x) {
      LessTotal(x.topicId, x.topicId);
    }
    forall x: Step, y: Step, z: Step ensures ByOrder(x, y) && ByOrder(y, z) ==> ByOrder(x, z) {
      LessTransitive(x.topicId, y.topicId, z.topicId);
    }
    forall x: Step, y: Step, z: Step ensures ByOrder(x, z) ==> ByOrder(x, y) || ByOrder(y, z) {
      LessTotal(x.topicId, y.topicId);
      LessTransitive(y.topicId, x.topicId, z.topicId);
    }
  }

  ghost predicate Ascends(orders: seq<int>) {
    forall i, j :: 0 <= i < j < |orders| ==> orders[i] <= orders[j]
  }

  /** Ascending numbers that contain all of 1 to their count are 1, 2, 3 and so on. */
  lemma {:induction false} AscendingRun(orders: seq<int>)
    requires Ascends(orders)
    requires forall k :: 1 <= k <= |orders| ==> k in orders
    ensures forall i :: 0 <= i < |orders| ==> orders[i] == i + 1
  {
    if orders != [] {
      var n := |orders| - 1;
      var init := orders[..n];
      assert orders[n] >= n + 1 by {
        assert n + 1 in orders;
      }
      forall k | 1 <= k <= n ensures k in init {
        assert k in orders;
        var i :| 0 <= i < |orders| && orders[i] == k;
        assert init[i] == k;
      }
      AscendingRun(init);
      assert forall i :: 0 <= i < n ==> init[i] == orders[i];
      assert n + 1 in orders;
    }
  }

  lemma InImage<A, B>(f: A -> B, s: seq<A>, y: B)
    ensures y in Map(f, s) <==> exists x :: x in s && f(x) == y
  {
    if y in Map(f, s) {
      var i :| 0 <= i < |s| && Map(f, s)[i] == y;
      assert s[i] in s && f(s[i]) == y;
    }
    if x :| x in s && f(x) == y {
      var i :| 0 <= i < |s| && s[i] == x;
      assert Map(f, s)[i] == y;
    }
  }

  /** Sorting keeps the orders that occur. */
  lemma SortedRun(group: seq<Step>)
    ensures RunFromOne(Map(OrderOf, Sort(ByOrder, group))) <==> RunFromOne(Map(OrderOf, group))
  {
    var steps := Sort(ByOrder, group);
    SameElements(ByOrder, group);
    forall k ensures k in Map(OrderOf, steps) <==> k in Map(OrderOf, group) {
      InImage(OrderOf, steps, k);
      InImage(OrderOf, group, k);
    }
  }

  /** Sorting puts the orders in ascending order. */
  lemma SortedAscends(group: seq<Step>)
    ensures Ascends(Map(OrderOf, Sort(ByOrder, group)))
  {
    var steps := Sort(ByOrder, group);
    ByOrderIsOrder();
    SortSorted(ByOrder, group);
    forall i, j | 0 <= i < j < |steps| ensures steps[i].order <= steps[j].order {
      assert !ByOrder(steps[j], steps[i]);
    }
  }

  lemma NumberedIff(steps: seq<Step>)
    requires Ascends(Map(OrderOf, steps))
    ensures Numbered(steps) <==> RunFromOne(Map(OrderOf, steps))
  {
    var orders := Map(OrderOf, steps);
    if RunFromOne(orders) {
      AscendingRun(orders);
      assert forall i :: 0 <= i < |steps| ==> steps[i].order == orders[i];
    }
    if Numbered(steps) {
      forall k | 1 <= k <= |orders| ensures k in orders {
        assert orders[k - 1] == steps[k - 1].order == k;
      }
    }
  }

  lemma OrderlyIff(group: seq<Step>)
    ensures Orderly(group) <==> RunFromOne(Map(OrderOf, group))
  {
    SortedRun(group);
    SortedAscends(group);
    NumberedIff(Sort(ByOrder, group));
  }

  lemma {:induction false} StepsOfAppend(name: string, a: seq<Entry>, b: seq<Entry>)
    ensures StepsOf(name, a + b) == StepsOf(name, a) + StepsOf(name, b)
  {
    if b == [] {
      assert a + b == a;
    } else {
      var n := |b| - 1;
      assert (a + b)[..|a| + n] == a + b[..n];
      StepsOfAppend(name, a, b[..n]);
    }
  }

  lemma OrdersAppend(a: seq<Step>, b: seq<Step>)
    ensures Map(OrderOf, a + b) == Map(OrderOf, a) + Map(OrderOf, b)
  {
  }

  lemma {:induction false} TopicOrdersAre(name: string, t: Topic, n: nat)
    requires n <= |Tours(t)|
    ensures Map(OrderOf, StepsOf(name, TopicEntries(t)[..n])) == TopicOrders(name, Tours(t)[..n])
  {
    if n > 0 {
      TopicOrdersAre(name, t, n - 1);
      var entries, tours := TopicEntries(t)[..n], Tours(t)[..n];
      assert entries[..n - 1] == TopicEntries(t)[..n - 1] && tours[..n - 1] == Tours(t)[..n - 1];
      var last := EntryOf(t, tours[n - 1]);
      assert entries[n - 1] == last;
      OrdersAppend(StepsOf(name, entries[..n - 1]), if last.releaseId == name then [last.step] else []);
    }
  }

  lemma {:induction false} TourOrdersAre(name: string, topics: seq<Topic>)
    ensures Map(OrderOf, StepsOf(name, Entries(topics))) == TourOrders(name, topics)
  {
    if topics != [] {
      var n := |topics| - 1;
      var t := topics[n];
      TourOrdersAre(name, topics[..n]);
      assert Entries(topics) == Entries(topics[..n]) + TopicEntries(t);
      StepsOfAppend(name, Entries(topics[..n]), TopicEntries(t));
      OrdersAppend(StepsOf(name, Entries(topics[..n])), StepsOf(name, TopicEntries(t)));
      TopicOrdersAre(name, t, |Tours(t)|);
      assert TopicEntries(t)[..|Tours(t)|] == TopicEntries(t) && Tours(t)[..|Tours(t)|] == Tours(t);
    }
  }

  /** The numbering test on the sorted steps is a test on the authored numbers. */
  lemma NumberingIff(topics: seq<Topic>)
    ensures WellNumbered(topics) <==> ToursNumbered(topics)
  {
    forall name: string ensures Orderly(StepsOf(name, Entries(topics))) <==> RunFromOne(TourOrders(name, topics)) {
      OrderlyIff(StepsOf(name, Entries(topics)));
      TourOrdersAre(name, topics);
    }
  }
}
