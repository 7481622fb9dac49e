/**
 One fetch round of worker/app/pipeline/runner.py, for any extraction, resolution and delivery
 functions: what it should return, and why extracting the newest message, popping it and
 sorting again is the same as one pass over the messages, newest first.
 */
module RoundScan {
  import opened Common
  import opened Sorting
  import opened Extractor

  datatype Message = Message(subject: string, body: string, receivedAt: int,
                             messageId: Option<string>, sender: Option<string>, recipients: seq<string>)

  datatype Outcome =
    | Found(kind: ResultType, value: string, messageId: Option<string>, fingerprint: string)
    | NotFound
    | FetchTimeout | FetchFailed | ResolveTimeout
    | Terminal(code: string)

  /** The monotonic clock, the number of interactions so far, and the provider calls among them. */
  datatype World = World(clock: int, step: nat, calls: nat)

  /** One interaction that needs at least `wait` time. */
  function Pass(elapse: nat -> nat, w: World, wait: nat): (r: World)
    ensures r.clock >= w.clock + wait && r.calls == w.calls
  {
    World(w.clock + wait + elapse(w.step), w.step + 1, w.calls)
  }

  /**
   An awaited operation of at least `wait` time under `asyncio.wait_for(..., timeout=budget)`:
   cut off at the timeout (first component true), or finished within the budget.
   */
  function Await(elapse: nat -> nat, w: World, wait: nat, budget: int): (r: (bool, World))
    requires budget >= 0
    ensures r.1.calls == w.calls
    ensures if r.0 then r.1.clock == w.clock + budget else w.clock + wait <= r.1.clock <= w.clock + budget
  {
    var time := wait + elapse(w.step);
    if time > budget then (true, World(w.clock + budget, w.step + 1, w.calls))
    else (false, World(w.clock + time, w.step + 1, w.calls))
  }

  /** A fetched message and its position in the fetched list. */
  datatype Candidate = Candidate(pos: nat, msg: Message)

  /**
   What stays fixed during a round: which messages mention the target, what a message yields, which
   yields are links to resolve, the resolver's reply for the message at each position, what is
   delivered for a result unless it was delivered before, the cutoff, the deadline and the time
   each interaction takes.
   */
  datatype Round = Round(mentions: Message -> bool, extract: Message -> Option<Extracted>,
                         isLink: Extracted -> bool, resolved: nat -> Option<string>,
                         deliver: (Message, ResultType, string) -> Option<Outcome>,
                         cutoff: int, deadline: int, elapse: nat -> nat)

  // ---- What a round should return, said without any loop or sort ----

  /** The result this message alone would deliver, if any: extracted, resolved, and not delivered before. */
  function Delivery(q: Round, c: Candidate): Option<Outcome> {
    var y := q.extract(c.msg);
    if y.None? then None
    else if q.isLink(y.value) then
      var code := q.resolved(c.pos);
      if code.None? || code.value == "" then None else q.deliver(c.msg, Code, code.value)
    else q.deliver(c.msg, y.value.kind, y.value.value)
  }

  predicate Acceptable(q: Round, emails: seq<Message>, i: int)
    requires 0 <= i < |emails|
  {
    && q.mentions(emails[i])
    && emails[i].receivedAt >= q.cutoff
    && Delivery(q, Candidate(i, emails[i])).Some?
  }

  /** Position `i` comes before position `j`: received later, or at the same time and listed earlier. */
  predicate Before(emails: seq<Message>, i: int, j: int)
    requires 0 <= i < |emails| && 0 <= j < |emails|
  {
    emails[i].receivedAt > emails[j].receivedAt || (emails[i].receivedAt == emails[j].receivedAt && i < j)
  }

  ghost predicate NewestAcceptable(q: Round, emails: seq<Message>, i: int)
    requires 0 <= i < |emails|
  {
    && Acceptable(q, emails, i)
    && forall j :: 0 <= j < |emails| && j != i && Acceptable(q, emails, j) ==> Before(emails, i, j)
  }

  ghost predicate Fruitless(q: Round, emails: seq<Message>) {
    forall i :: 0 <= i < |emails| ==> !Acceptable(q, emails, i)
  }

  /** `o` is what the newest acceptable message delivers. */
  ghost predicate Fruitful(q: Round, emails: seq<Message>, o: Outcome) {
    exists i :: 0 <= i < |emails| && NewestAcceptable(q, emails, i) && Delivery(q, Candidate(i, emails[i])) == Some(o)
  }

  // ---- One scan, newest first ----

  datatype RoundResult = Hit(outcome: Outcome) | Nothing | OutOfTime
  datatype Verdict = Accept(outcome: Outcome) | Reject | Late

  /** `_filter_target_emails`, with the positions kept. */
  function Targets(q: Round, emails: seq<Message>, from: nat): (r: seq<Candidate>)
    requires from <= |emails|
    ensures forall c :: c in r <==> from <= c.pos < |emails| && c.msg == emails[c.pos] && q.mentions(c.msg)
    ensures Ascending(Position, r)
    decreases |emails| - from
  {
    if from == |emails| then []
    else if q.mentions(emails[from]) then [Candidate(from, emails[from])] + Targets(q, emails, from + 1)
    else Targets(q, emails, from + 1)
  }

  function Position(c: Candidate): int { c.pos }

  predicate ReceivedLater(a: Candidate, b: Candidate) { a.msg.receivedAt > b.msg.receivedAt }

  function Recent(cutoff: int): Candidate -> bool { (c: Candidate) => c.msg.receivedAt >= cutoff }

  /** The order in which a single pass would look at the candidates. */
  function ScanOrder(cutoff: int, s: seq<Candidate>): seq<Candidate> {
    Sort(ReceivedLater, Filter(Recent(cutoff), s))
  }

  function Judge(q: Round, c: Candidate, w: World): (Verdict, World)
    requires q.extract(c.msg).Some?
  {
    var d := Delivery(q, c);
    var verdict := if d.Some? then Accept(d.value) else Reject;
    if q.isLink(q.extract(c.msg).value) then
      var w1 := Pass(q.elapse, w, 0);
      if q.deadline - w1.clock <= 0 then (Late, w1)
      else
        var (late, w2) := Await(q.elapse, w1, 0, q.deadline - w1.clock);
        (if late then Late else verdict, w2)
    else (verdict, w)
  }

  /** The simple form of a round: one pass over the candidates in scan order. */
  function Scan(q: Round, order: seq<Candidate>, w: World): (RoundResult, World) {
    if order == [] then (Nothing, w)
    else if q.extract(order[0].msg).None? then Scan(q, order[1..], w)
    else
      var (v, w') := Judge(q, order[0], w);
      match v
      case Accept(o) => (Hit(o), w')
      case Reject => Scan(q, order[1..], w')
      case Late => (OutOfTime, w')
  }

  // ---- Why re-sorting after each removal changes nothing ----

  lemma ScanOrderFacts(cutoff: int, s: seq<Candidate>)
    requires Ascending(Position, s)
    ensures StrictlyOrdered(ReceivedLater, Position, ScanOrder(cutoff, s))
    ensures forall c :: c in ScanOrder(cutoff, s) <==> c in s && c.msg.receivedAt >= cutoff
  {
    var recent := Filter(Recent(cutoff), s);
    FilterAscending(Position, Recent(cutoff), s);
    SameElements(ReceivedLater, recent);
    SortStable(ReceivedLater, Position, recent);
  }

  /** Removing a message leaves the scan order of all the others as it was. */
  lemma RemovalKeepsOrder(cutoff: int, s: seq<Candidate>, i: nat, p: nat)
    requires Ascending(Position, s) && i < |s|
    requires p < |ScanOrder(cutoff, s)| && ScanOrder(cutoff, s)[p] == s[i]
    ensures Ascending(Position, Without(s, i))
    ensures ScanOrder(cutoff, Without(s, i)) == Without(ScanOrder(cutoff, s), p)
  {
    FilterAscending(Position, Recent(cutoff), s);
    SortRemoval(ReceivedLater, Position, Recent(cutoff), s, i, p);
  }

  /** A scan passes over messages that yield nothing, at no cost. */
  lemma {:induction false} ScanSkips(q: Round, order: seq<Candidate>, p: nat, w: World)
    requires p <= |order| && forall a :: 0 <= a < p ==> q.extract(order[a].msg).None?
    ensures Scan(q, order, w) == Scan(q, order[p..], w)
  {
    if p == 0 {
      assert order[0..] == order;
    } else {
      ScanSkips(q, order[1..], p - 1, w);
      assert order[1..][p - 1..] == order[p..];
    }
  }

  /** Rejecting the newest yielding message and starting over is one step of the scan. */
  lemma ScanRejects(q: Round, order: seq<Candidate>, p: nat, w: World, w': World)
    requires p < |order| && forall a :: 0 <= a < p ==> q.extract(order[a].msg).None?
    requires q.extract(order[p].msg).Some? && Judge(q, order[p], w) == (Reject, w')
    ensures Scan(q, order, w) == Scan(q, Without(order, p), w')
  {
    ScanSkips(q, order, p, w);
    ScanSkips(q, Without(order, p), p, w');
    assert order[p..][1..] == order[p + 1..] == Without(order, p)[p..];
  }

  /** One turn of the loop on the newest yielding candidate: accept, stop, or go on without it. */
  lemma ScanStep(q: Round, s: seq<Candidate>, i: nat, w: World)
    requires Ascending(Position, s) && i < |s| && NewestYielding(q, s, i)
    ensures var (v, w') := Judge(q, s[i], w);
            match v
            case Accept(o) => Scan(q, ScanOrder(q.cutoff, s), w) == (Hit(o), w')
            case Late => Scan(q, ScanOrder(q.cutoff, s), w) == (OutOfTime, w')
            case Reject => && Ascending(Position, Without(s, i))
                           && Scan(q, ScanOrder(q.cutoff, s), w) == Scan(q, ScanOrder(q.cutoff, Without(s, i)), w')
  {
    var order := ScanOrder(q.cutoff, s);
    var p := NewestYieldingIsNext(q, s, i);
    var (v, w') := Judge(q, s[i], w);
    if v.Reject? {
      RemovalKeepsOrder(q.cutoff, s, i, p);
      ScanRejects(q, order, p, w, w');
    } else {
      ScanSkips(q, order, p, w);
    }
  }

  /** Candidate `i` is recent, yields a result, and comes before every other such candidate. */
  ghost predicate NewestYielding(q: Round, s: seq<Candidate>, i: int)
    requires 0 <= i < |s|
  {
    && s[i].msg.receivedAt >= q.cutoff && q.extract(s[i].msg).Some?
    && forall j :: 0 <= j < |s| && j != i && s[j].msg.receivedAt >= q.cutoff && q.extract(s[j].msg).Some? ==>
         s[i].msg.receivedAt > s[j].msg.receivedAt || (s[i].msg.receivedAt == s[j].msg.receivedAt && i < j)
  }

  /** The newest yielding candidate is preceded in scan order only by candidates that yield nothing. */
  lemma NewestYieldingIsNext(q: Round, s: seq<Candidate>, i: nat) returns (p: nat)
    requires Ascending(Position, s) && i < |s| && NewestYielding(q, s, i)
    ensures p < |ScanOrder(q.cutoff, s)| && ScanOrder(q.cutoff, s)[p] == s[i]
    ensures forall a :: 0 <= a < p ==> q.extract(ScanOrder(q.cutoff, s)[a].msg).None?
  {
    var order := ScanOrder(q.cutoff, s);
    ScanOrderFacts(q.cutoff, s);
    assert s[i] in order;
    p :| 0 <= p < |order| && order[p] == s[i];
    forall a | 0 <= a < p ensures q.extract(order[a].msg).None? {
      assert order[a] in order;
      var j :| 0 <= j < |s| && s[j] == order[a];
      assert Precedes(ReceivedLater, Position, order[a], order[p]);
      assert i < j ==> Position(s[i]) < Position(s[j]);
    }
  }

  lemma NothingYields(q: Round, s: seq<Candidate>, w: World)
    requires Ascending(Position, s)
    requires forall i :: 0 <= i < |s| && s[i].msg.receivedAt >= q.cutoff ==> q.extract(s[i].msg).None?
    ensures Scan(q, ScanOrder(q.cutoff, s), w) == (Nothing, w)
  {
    var order := ScanOrder(q.cutoff, s);
    ScanOrderFacts(q.cutoff, s);
    forall a | 0 <= a < |order| ensures q.extract(order[a].msg).None? {
      assert order[a] in order;
    }
    ScanSkips(q, order, |order|, w);
  }

  // ---- What the scan finds ----

  /** A scan that ends in time delivers the first deliverable candidate of its order. */
  lemma {:induction false} ScanFindsFirst(q: Round, order: seq<Candidate>, w: World)
    ensures var (r, w') := Scan(q, order, w);
            && w'.clock >= w.clock && w'.calls == w.calls
            && (r.OutOfTime? ==> w'.clock >= q.deadline)
            && (r.Hit? && w.clock <= q.deadline ==> w'.clock <= q.deadline)
            && (r.Nothing? ==> forall a :: 0 <= a < |order| ==> Delivery(q, order[a]).None?)
            && (r.Hit? ==> exists p :: FirstDelivery(q, order, p) && Delivery(q, order[p]) == Some(r.outcome))
  {
    if order != [] {
      var w1 := if q.extract(order[0].msg).None? then w else Judge(q, order[0], w).1;
      ScanFindsFirst(q, order[1..], w1);
      var r := Scan(q, order, w).0;
      if r.Hit? && Delivery(q, order[0]).None? {
        var p :| FirstDelivery(q, order[1..], p) && Delivery(q, order[1..][p]) == Some(r.outcome);
        assert FirstDelivery(q, order, p + 1);
      } else if r.Hit? {
        assert FirstDelivery(q, order, 0);
      }
    }
  }

  ghost predicate FirstDelivery(q: Round, order: seq<Candidate>, p: int) {
    && 0 <= p < |order|
    && Delivery(q, order[p]).Some?
    && forall a :: 0 <= a < p ==> Delivery(q, order[a]).None?
  }

  /** What a scan of a whole round finds, in terms of the fetched list alone. */
  lemma ScanFindsNewestAcceptable(q: Round, emails: seq<Message>, w: World)
    ensures var r := Scan(q, ScanOrder(q.cutoff, Targets(q, emails, 0)), w).0;
            && (r.Nothing? ==> Fruitless(q, emails))
            && (r.Hit? ==> Fruitful(q, emails, r.outcome))
  {
    var cs := Targets(q, emails, 0);
    var order := ScanOrder(q.cutoff, cs);
    ScanOrderFacts(q.cutoff, cs);
    ScanFindsFirst(q, order, w);
    var r := Scan(q, order, w).0;
    forall i | 0 <= i < |emails| && Acceptable(q, emails, i) ensures Candidate(i, emails[i]) in order {
      assert Candidate(i, emails[i]) in cs;
    }
    if r.Hit? {
      var p :| FirstDelivery(q, order, p) && Delivery(q, order[p]) == Some(r.outcome);
      FirstIsNewest(q, emails, order, p);
    }
  }

  lemma FirstIsNewest(q: Round, emails: seq<Message>, order: seq<Candidate>, p: int)
    requires StrictlyOrdered(ReceivedLater, Position, order) && FirstDelivery(q, order, p)
    requires forall c :: c in order ==>
               c.pos < |emails| && c.msg == emails[c.pos] && q.mentions(c.msg) && c.msg.receivedAt >= q.cutoff
    requires forall i :: 0 <= i < |emails| && Acceptable(q, emails, i) ==> Candidate(i, emails[i]) in order
    ensures order[p] in order && order[p] == Candidate(order[p].pos, emails[order[p].pos])
    ensures NewestAcceptable(q, emails, order[p].pos)
  {
    var i := order[p].pos;
    assert order[p] in order;
    forall j | 0 <= j < |emails| && j != i && Acceptable(q, emails, j) ensures Before(emails, i, j) {
      var b :| 0 <= b < |order| && order[b] == Candidate(j, emails[j]);
      assert Precedes(ReceivedLater, Position, order[p], order[b]);
    }
  }
}
