/**
 The epoch-guarded settings cache of the frontend (frontend/src/store/settings.ts): six resources
 loaded on demand, shared fetches, and a clear that starts a new epoch.  A load runs as one step up
 to its request, and each completion is one step; any order of steps may occur.
 */
module SettingsCache {
  import opened Common

  datatype Resource = Reminders | Tenant | Timezones | Currencies | Mailbox | PublicApiKey

  /** The three resources whose failure resets their value instead of reporting an error. */
  predicate Quiet(r: Resource) {
    r.Timezones? || r.Currencies? || r.Mailbox?
  }

  type FetchId = nat

  /** A cached value is known by the fetch it came from; `inFlight` marks the shared fetch. */
  datatype Slot = Slot(value: Option<FetchId>, loaded: bool, inFlight: Option<FetchId>)

  const EMPTY := Slot(None, false, None)

  datatype Fetch = Fetch(resource: Resource, epoch: nat, open: bool)

  /** Resources without an entry have an empty slot. */
  datatype State = State(slots: map<Resource, Slot>, error: Option<string>, epoch: nat, fetches: seq<Fetch>)

  const INIT := State(map[], None, 0, [])

  function SlotOf(s: State, r: Resource): Slot {
    if r in s.slots then s.slots[r] else EMPTY
  }

  datatype Event = Load(resource: Resource) | Succeed(i: FetchId) | Fail(i: FetchId, message: string) | Clear

  predicate Enabled(s: State, e: Event) {
    match e
    case Succeed(i) => i < |s.fetches| && s.fetches[i].open
    case Fail(i, _) => i < |s.fetches| && s.fetches[i].open
    case _ => true
  }

  function Closed(s: State, i: FetchId): State
    requires i < |s.fetches|
  {
    s.(fetches := s.fetches[i := s.fetches[i].(open := false)])
  }

  /** Whether a load has to start a fetch of its own. */
  predicate Starts(s: State, r: Resource) {
    !SlotOf(s, r).loaded && SlotOf(s, r).inFlight.None?
  }

  function Apply(s: State, e: Event): State
    requires Enabled(s, e)
  {
    match e
    case Load(r) =>
      if Starts(s, r)
      then s.(slots := s.slots[r := SlotOf(s, r).(inFlight := Some(|s.fetches|))],
              fetches := s.fetches + [Fetch(r, s.epoch, true)])
      else s
    case Succeed(i) =>
      var f := s.fetches[i];
      if f.epoch != s.epoch then Closed(s, i)
      else Closed(s, i).(slots := s.slots[f.resource := Slot(Some(i), true, None)],
                         error := if Quiet(f.resource) then s.error else None)
    case Fail(i, message) =>
      var r := s.fetches[i].resource;
      if Quiet(r) then Closed(s, i).(slots := s.slots[r := EMPTY])
      else Closed(s, i).(slots := s.slots[r := SlotOf(s, r).(inFlight := None)], error := Some(message))
    case Clear => State(map[], None, s.epoch + 1, s.fetches)
  }

  ghost predicate Reaches(events: seq<Event>, s: State) {
    if events == [] then s == INIT
    else
      var n := |events| - 1;
      exists before :: Reaches(events[..n], before) && Enabled(before, events[n]) && Apply(before, events[n]) == s
  }

  // ---- Cached values belong to the current epoch ----

  ghost predicate FreshSlot(s: State, r: Resource) {
    var slot := SlotOf(s, r);
    && (slot.loaded <==> slot.value.Some?)
    && (slot.value.Some? ==>
          && slot.value.value < |s.fetches|
          && s.fetches[slot.value.value].resource == r
          && s.fetches[slot.value.value].epoch == s.epoch)
  }

  ghost predicate Fresh(s: State) {
    forall r: Resource :: FreshSlot(s, r)
  }

  lemma StepKeepsFresh(s: State, e: Event)
    requires Fresh(s) && Enabled(s, e)
    ensures Fresh(Apply(s, e))
  {
    var next := Apply(s, e);
    forall r: Resource ensures FreshSlot(next, r) {
      assert FreshSlot(s, r);
    }
  }

  /**
   In every interleaving, failures included, a value in the cache is marked loaded and came from a
   fetch of that resource started in the current epoch.
   */
  lemma {:induction false} LoadedIsFresh(events: seq<Event>, s: State)
    requires Reaches(events, s)
    ensures Fresh(s)
  {
    if events != [] {
      var n := |events| - 1;
      var before :| Reaches(events[..n], before) && Enabled(before, events[n]) && Apply(before, events[n]) == s;
      LoadedIsFresh(events[..n], before);
      StepKeepsFresh(before, events[n]);
    }
  }

  // ---- A value is cached exactly while a success stands ----

  /** Fetches of earlier epochs and of no other. */
  ghost predicate Dated(s: State) {
    forall i :: 0 <= i < |s.fetches| ==> s.fetches[i].epoch <= s.epoch
  }

  /** Event `k` is the success of a fetch of `r` that was started in the current epoch. */
  ghost predicate Served(events: seq<Event>, s: State, k: int, r: Resource) {
    && 0 <= k < |events| && events[k].Succeed? && events[k].i < |s.fetches|
    && s.fetches[events[k].i].resource == r && s.fetches[events[k].i].epoch == s.epoch
  }

  /** Event `j` is a failure of a fetch of `r`, which a quiet resource does not survive. */
  ghost predicate Spoiled(events: seq<Event>, s: State, j: int, r: Resource) {
    && 0 <= j < |events| && events[j].Fail? && events[j].i < |s.fetches|
    && s.fetches[events[j].i].resource == r && Quiet(r)
  }

  ghost predicate Stands(events: seq<Event>, s: State, k: int, r: Resource) {
    Served(events, s, k, r) && forall j :: k < j < |events| ==> !Spoiled(events, s, j, r)
  }

  lemma StepDates(s: State, e: Event)
    requires Dated(s) && Enabled(s, e)
    ensures Dated(Apply(s, e)) && |Apply(s, e).fetches| >= |s.fetches| && Apply(s, e).epoch >= s.epoch
    ensures forall i :: 0 <= i < |s.fetches| ==>
              && Apply(s, e).fetches[i].resource == s.fetches[i].resource
              && Apply(s, e).fetches[i].epoch == s.fetches[i].epoch
  {
  }

  /** Every completion belongs to a fetch that had been started. */
  ghost predicate Started(events: seq<Event>, s: State) {
    forall k :: 0 <= k < |events| ==>
      (events[k].Succeed? ==> events[k].i < |s.fetches|) && (events[k].Fail? ==> events[k].i < |s.fetches|)
  }

  lemma {:induction false} AllStarted(events: seq<Event>, s: State)
    requires Reaches(events, s)
    ensures Dated(s) && Started(events, s)
  {
    if events != [] {
      var n := |events| - 1;
      var before :| Reaches(events[..n], before) && Enabled(before, events[n]) && Apply(before, events[n]) == s;
      AllStarted(events[..n], before);
      StepDates(before, events[n]);
      assert forall k :: 0 <= k < n ==> events[..n][k] == events[k];
    }
  }

  /** What the last step does to whether `r` is loaded. */
  lemma LoadedStep(s: State, e: Event, r: Resource)
    requires Enabled(s, e)
    ensures SlotOf(Apply(s, e), r).loaded <==>
              || (e.Succeed? && s.fetches[e.i].resource == r && s.fetches[e.i].epoch == s.epoch)
              || (SlotOf(s, r).loaded && !e.Clear? && !(e.Fail? && s.fetches[e.i].resource == r && Quiet(r)))
  {
  }

  /**
   In every interleaving a resource is loaded exactly when a fetch of it that was started in the
   current epoch has succeeded and, for a quiet resource, no fetch of it has failed since.
   */
  lemma {:induction false} LoadedIffStands(events: seq<Event>, s: State, r: Resource)
    requires Reaches(events, s)
    ensures SlotOf(s, r).loaded <==> exists k :: Stands(events, s, k, r)
  {
    if events != [] {
      var n := |events| - 1;
      var before :| Reaches(events[..n], before) && Enabled(before, events[n]) && Apply(before, events[n]) == s;
      LoadedIffStands(events[..n], before, r);
      AllStarted(events[..n], before);
      StepDates(before, events[n]);
      LoadedStep(before, events[n], r);
      forall k ensures Stands(events, s, k, r) <==>
        || (k == n && Served(events, s, n, r))
        || (Stands(events[..n], before, k, r) && !events[n].Clear? && !Spoiled(events, s, n, r))
      {
        StandsStep(events, before, s, k, r);
      }
      if exists k :: Stands(events[..n], before, k, r) {
        var k :| Stands(events[..n], before, k, r);
        assert Stands(events, s, k, r) || events[n].Clear? || Spoiled(events, s, n, r);
      }
      assert Served(events, s, n, r) ==> Stands(events, s, n, r);
    }
  }

  lemma StandsStep(events: seq<Event>, before: State, s: State, k: int, r: Resource)
    requires events != [] && Dated(before) && Started(events[..|events| - 1], before)
    requires var e := events[|events| - 1]; Enabled(before, e) && Apply(before, e) == s
    ensures var n := |events| - 1;
            Stands(events, s, k, r) <==>
              || (k == n && Served(events, s, n, r))
              || (Stands(events[..n], before, k, r) && !events[n].Clear? && !Spoiled(events, s, n, r))
  {
    var n := |events| - 1;
    StepDates(before, events[n]);
    forall j | 0 <= j < n
      ensures Spoiled(events, s, j, r) <==> Spoiled(events[..n], before, j, r)
      ensures Served(events, s, j, r) <==> Served(events[..n], before, j, r) && !events[n].Clear?
    {
      assert events[..n][j] == events[j];
    }
  }

  // ---- At most one fetch in flight ----

  predicate Open(s: State, i: int) {
    0 <= i < |s.fetches| && s.fetches[i].open
  }

  /** An open fetch of the current epoch is the one marked in flight. */
  ghost predicate Marked(s: State, i: int) {
    Open(s, i) && s.fetches[i].epoch == s.epoch ==> SlotOf(s, s.fetches[i].resource).inFlight == Some(i)
  }

  /** The marker names an open fetch of that resource and of the current epoch. */
  ghost predicate MarkerOk(s: State, r: Resource) {
    var m := SlotOf(s, r).inFlight;
    m.Some? ==>
      && !SlotOf(s, r).loaded
      && Open(s, m.value) && s.fetches[m.value].resource == r && s.fetches[m.value].epoch == s.epoch
  }

  ghost predicate Tracked(s: State) {
    && (forall r: Resource :: MarkerOk(s, r))
    && (forall i: int :: Marked(s, i))
    && (forall i :: 0 <= i < |s.fetches| ==> s.fetches[i].epoch <= s.epoch)
  }

  predicate SameSource(f: Fetch, g: Fetch) {
    f.resource == g.resource && f.epoch == g.epoch
  }

  ghost predicate SingleFlight(s: State) {
    forall i: int, j: int ::
      Open(s, i) && Open(s, j) && SameSource(s.fetches[i], s.fetches[j]) ==> i == j
  }

  /** A failure that reaches the store after a clear. */
  predicate StaleFailure(s: State, e: Event) {
    e.Fail? && e.i < |s.fetches| && s.fetches[e.i].epoch != s.epoch
  }

  lemma StepKeepsTracked(s: State, e: Event)
    requires Tracked(s) && Enabled(s, e) && !StaleFailure(s, e)
    ensures Tracked(Apply(s, e))
  {
    var next := Apply(s, e);
    if e.Succeed? || e.Fail? {
      assert Marked(s, e.i);
    }
    forall r: Resource ensures MarkerOk(next, r) {
      assert MarkerOk(s, r);
    }
    forall i: int ensures Marked(next, i) {
      assert Marked(s, i);
    }
  }

  lemma StepKeepsSingle(s: State, e: Event)
    requires Tracked(s) && SingleFlight(s) && Enabled(s, e)
    ensures SingleFlight(Apply(s, e))
  {
    var next := Apply(s, e);
    forall i: int, j: int | Open(next, i) && Open(next, j) && SameSource(next.fetches[i], next.fetches[j])
      ensures i == j
    {
      assert Marked(s, i) && Marked(s, j);
    }
  }

  /** A run in which every failing fetch fails in the epoch it was started in. */
  ghost predicate ReachesPromptly(events: seq<Event>, s: State) {
    if events == [] then s == INIT
    else
      var n := |events| - 1;
      exists before ::
        && ReachesPromptly(events[..n], before) && Enabled(before, events[n])
        && !StaleFailure(before, events[n]) && Apply(before, events[n]) == s
  }

  /** Without stale failures, at most one fetch per resource and epoch is in flight, and the store knows it. */
  lemma {:induction false} PromptRunsAreSingle(events: seq<Event>, s: State)
    requires ReachesPromptly(events, s)
    ensures Tracked(s) && SingleFlight(s)
  {
    if events != [] {
      var n := |events| - 1;
      var before :|
        && ReachesPromptly(events[..n], before) && Enabled(before, events[n])
        && !StaleFailure(before, events[n]) && Apply(before, events[n]) == s;
      PromptRunsAreSingle(events[..n], before);
      StepKeepsTracked(before, events[n]);
      StepKeepsSingle(before, events[n]);
    }
  }

  /** Runs in which no load fails are such runs. */
  lemma {:induction false} NoFailureIsPrompt(events: seq<Event>, s: State)
    requires Reaches(events, s) && forall k :: 0 <= k < |events| ==> !events[k].Fail?
    ensures ReachesPromptly(events, s) && SingleFlight(s)
  {
    if events != [] {
      var n := |events| - 1;
      var before :| Reaches(events[..n], before) && Enabled(before, events[n]) && Apply(before, events[n]) == s;
      NoFailureIsPrompt(events[..n], before);
    }
    PromptRunsAreSingle(events, s);
  }

  /** Another fetch of the same resource is open in the current epoch. */
  ghost predicate HasRival(s: State, i: FetchId)
    requires i < |s.fetches|
  {
    exists j: int :: j != i && Open(s, j) && s.fetches[j].resource == s.fetches[i].resource
                     && s.fetches[j].epoch == s.epoch
  }

  /**
   Exactly when a failure lets the next load of its resource duplicate a fetch, from any state
   without a duplicate: the failure is stale, another fetch of the resource is open in the current
   epoch, and the failure leaves the resource unloaded.
   */
  lemma DuplicateAfterFailureIff(s: State, e: Event)
    requires SingleFlight(s) && Enabled(s, e) && e.Fail?
    ensures var r := s.fetches[e.i].resource;
            SingleFlight(Apply(Apply(s, e), Load(r))) <==>
            !(StaleFailure(s, e) && HasRival(s, e.i) && (Quiet(r) || !SlotOf(s, r).loaded))
  {
    var r := s.fetches[e.i].resource;
    var after := Apply(s, e);
    var last := Apply(after, Load(r));
    FailureStarts(s, e);
    if StaleFailure(s, e) && HasRival(s, e.i) && (Quiet(r) || !SlotOf(s, r).loaded) {
      var j: int :| j != e.i && Open(s, j) && s.fetches[j].resource == r && s.fetches[j].epoch == s.epoch;
      assert Open(last, j) && Open(last, |s.fetches|) && SameSource(last.fetches[j], last.fetches[|s.fetches|]);
    } else {
      NoRivalNoDuplicate(s, e);
    }
  }

  /** Whether the load after a failure starts a fetch. */
  lemma FailureStarts(s: State, e: Event)
    requires Enabled(s, e) && e.Fail?
    ensures var r := s.fetches[e.i].resource;
            Starts(Apply(s, e), r) <==> Quiet(r) || !SlotOf(s, r).loaded
  {
  }

  lemma NoRivalNoDuplicate(s: State, e: Event)
    requires SingleFlight(s) && Enabled(s, e) && e.Fail?
    requires var r := s.fetches[e.i].resource;
             !(StaleFailure(s, e) && HasRival(s, e.i) && (Quiet(r) || !SlotOf(s, r).loaded))
    ensures SingleFlight(Apply(Apply(s, e), Load(s.fetches[e.i].resource)))
  {
    var r := s.fetches[e.i].resource;
    var last := Apply(Apply(s, e), Load(r));
    FailureStarts(s, e);
    forall i: int, j: int | Open(last, i) && Open(last, j) && SameSource(last.fetches[i], last.fetches[j])
      ensures i == j
    {
      assert i < |s.fetches| ==> Open(s, i) && i != e.i;
      assert j < |s.fetches| ==> Open(s, j) && j != e.i;
      assert i < |s.fetches| && j < |s.fetches| ==> SameSource(s.fetches[i], s.fetches[j]);
      assert !StaleFailure(s, e) && i < |s.fetches| ==> !SameSource(s.fetches[i], s.fetches[e.i]);
      assert !StaleFailure(s, e) && j < |s.fetches| ==> !SameSource(s.fetches[j], s.fetches[e.i]);
    }
  }

  /** In states where the markers are right, the rival is the fetch marked in flight. */
  lemma RivalIsMarked(s: State, e: Event)
    requires Tracked(s) && Enabled(s, e) && StaleFailure(s, e)
    ensures HasRival(s, e.i) <==> SlotOf(s, s.fetches[e.i].resource).inFlight.Some?
    ensures HasRival(s, e.i) ==> !SlotOf(s, s.fetches[e.i].resource).loaded
  {
    var r := s.fetches[e.i].resource;
    assert MarkerOk(s, r);
    if HasRival(s, e.i) {
      var j: int :| j != e.i && Open(s, j) && s.fetches[j].resource == r && s.fetches[j].epoch == s.epoch;
      assert Marked(s, j);
    }
    if SlotOf(s, r).inFlight.Some? {
      assert SlotOf(s, r).inFlight.value != e.i;
    }
  }

  // ---- A failure can also drop a value ----

  /** The failure removes a value that was loaded. */
  predicate Drops(s: State, e: Event)
    requires Enabled(s, e) && e.Fail?
  {
    var r := s.fetches[e.i].resource;
    SlotOf(s, r).loaded && !SlotOf(Apply(s, e), r).loaded
  }

  /**
   Exactly when a failure removes a loaded value: the resource is quiet and loaded.  While every
   earlier failure came in its own epoch, only a stale failure finds it so.
   */
  lemma FailureDropsIff(s: State, e: Event)
    requires Enabled(s, e) && e.Fail?
    ensures var r := s.fetches[e.i].resource;
            && (Drops(s, e) <==> Quiet(r) && SlotOf(s, r).loaded)
            && (Tracked(s) ==> (Drops(s, e) <==> StaleFailure(s, e) && Quiet(r) && SlotOf(s, r).loaded))
  {
    if Tracked(s) && !StaleFailure(s, e) {
      assert Marked(s, e.i) && MarkerOk(s, s.fetches[e.i].resource);
    }
  }

  /** Only failures and clears ever take a loaded value away. */
  lemma OnlyFailuresDrop(s: State, e: Event, r: Resource)
    requires Enabled(s, e) && SlotOf(s, r).loaded && !SlotOf(Apply(s, e), r).loaded
    ensures e.Clear? || (e.Fail? && s.fetches[e.i].resource == r && Drops(s, e))
  {
  }

  /** Such a run exists for every quiet resource: load, clear, load again, success, late failure of the first load. */
  lemma StaleFailureWipes(r: Resource, message: string) returns (events: seq<Event>, s: State)
    requires Quiet(r)
    ensures Reaches(events, s) && SlotOf(s, r).loaded && SlotOf(s, r).value == Some(1)
    ensures Enabled(s, Fail(0, message)) && StaleFailure(s, Fail(0, message)) && Drops(s, Fail(0, message))
  {
    var s1 := Apply(INIT, Load(r));
    events := Extend([], INIT, Load(r));
    var s2 := Apply(s1, Clear);
    events := Extend(events, s1, Clear);
    var s3 := Apply(s2, Load(r));
    events := Extend(events, s2, Load(r));
    s := Apply(s3, Succeed(1));
    events := Extend(events, s3, Succeed(1));
  }

  lemma Extend(events: seq<Event>, s: State, e: Event) returns (longer: seq<Event>)
    requires Reaches(events, s) && Enabled(s, e)
    ensures Reaches(longer, Apply(s, e))
  {
    longer := events + [e];
    assert longer[..|events|] == events;
  }

  /** Such a run exists for every resource: a load, a clear, a new load, the late failure, and one more load. */
  lemma StaleFailureRun(r: Resource, message: string) returns (events: seq<Event>, s: State)
    ensures Reaches(events, s) && !SingleFlight(s)
  {
    var s1 := Apply(INIT, Load(r));
    events := Extend([], INIT, Load(r));
    var s2 := Apply(s1, Clear);
    events := Extend(events, s1, Clear);
    var s3 := Apply(s2, Load(r));
    events := Extend(events, s2, Load(r));
    var s4 := Apply(s3, Fail(0, message));
    events := Extend(events, s3, Fail(0, message));
    s := Apply(s4, Load(r));
    events := Extend(events, s4, Load(r));
    assert Open(s, 1) && Open(s, 2) && SameSource(s.fetches[1], s.fetches[2]);
  }

  // ---- The object ----

  class Store {
    var slots: map<Resource, Slot>
    var error: Option<string>
    var epoch: nat
    var fetches: seq<Fetch>

    function View(): State
      reads this
    {
      State(slots, error, epoch, fetches)
    }

    constructor ()
      ensures View() == INIT
    {
      slots := map[];
      error := None;
      epoch := 0;
      fetches := [];
    }

    method StartLoad(r: Resource)
      modifies this
      ensures View() == Apply(old(View()), Load(r))
    {
      var slot := if r in slots then slots[r] else EMPTY;
      if slot.loaded || slot.inFlight.Some? {
        return;
      }
      slots := slots[r := slot.(inFlight := Some(|fetches|))];
      fetches := fetches + [Fetch(r, epoch, true)];
    }

    method CompleteLoad(i: FetchId)
      requires i < |fetches| && fetches[i].open
      modifies this
      ensures View() == Apply(old(View()), Succeed(i))
      ensures epoch == old(epoch) && old(fetches)[i].epoch != epoch ==> slots == old(slots) && error == old(error)
      ensures old(fetches)[i].epoch == epoch ==>
        && slots == old(slots)[old(fetches)[i].resource := Slot(Some(i), true, None)]
        && error == (match old(fetches)[i].resource
                     case Timezones => old(error)
                     case Currencies => old(error)
                     case Mailbox => old(error)
                     case _ => None)
    {
      var f := fetches[i];
      fetches := fetches[i := f.(open := false)];
      if f.epoch != epoch {
        return;
      }
      slots := slots[f.resource := Slot(Some(i), true, None)];
      if !Quiet(f.resource) {
        error := None;
      }
    }

    method FailLoad(i: FetchId, message: string)
      requires i < |fetches| && fetches[i].open
      modifies this
      ensures View() == Apply(old(View()), Fail(i, message))
      ensures error == if Quiet(old(fetches)[i].resource) then old(error) else Some(message)
    {
      var r := fetches[i].resource;
      var slot := if r in slots then slots[r] else EMPTY;
      fetches := fetches[i := fetches[i].(open := false)];
      if Quiet(r) {
        slots := slots[r := EMPTY];
      } else {
        slots := slots[r := slot.(inFlight := None)];
        error := Some(message);
      }
    }

    method ClearSettingsCache()
      modifies this
      ensures View() == Apply(old(View()), Clear)
      ensures slots == map[] && error.None? && epoch == old(epoch) + 1 && fetches == old(fetches)
    {
      slots := map[];
      error := None;
      epoch := epoch + 1;
    }
  }
}
