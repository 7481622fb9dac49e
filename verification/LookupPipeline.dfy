/**
 Model of worker/app/pipeline/runner.py: one mailbox lookup, from the command to its outcome.

 The outside world is a value.  `Env` scripts it: the reply of the n-th provider call, the
 resolver's reply for each message of each fetch round (a message is resolved at most once per
 round, so this covers every resolver), and the time every interaction takes.  Every clock
 reading advances the clock by an arbitrary amount, so computation between two readings may
 take any time.  Times are integers (microseconds).
 */
module LookupPipeline {
  import opened Common
  import opened Sorting
  import opened Extractor
  import opened RoundScan

  const SECOND := 1_000_000
  const MAX_FETCH_ATTEMPTS := 3
  const BASE_RETRY_DELAY := SECOND
  const POLL_INTERVAL := 4 * SECOND
  const NETFLIX := "netflix"

  datatype Command = Command(service: string, target: string, windowMinutes: int, searchAfter: Option<int>,
                             timeoutSeconds: nat, deadlineAt: Option<int>,
                             excluded: set<(Option<string>, string)>)

  /** Library functions the runner calls: the rule catalog, case folding, stripping, hashing, date printing. */
  datatype Library = Library(catalog: Catalog, fold: string -> string, strip: string -> string,
                             sha256: string -> string, iso: int -> string)

  datatype Reply = Emails(emails: seq<Message>) | Transient | NonTransient(code: string)
  datatype Env = Env(reply: nat -> Reply, resolved: (nat, nat) -> Option<string>, elapse: nat -> nat)

  /** `_effective_timeout_seconds`: the caller's timeout capped by the absolute deadline. */
  function EffectiveTimeout(cmd: Command, now: int): (r: int)
    ensures 0 <= r <= cmd.timeoutSeconds * SECOND
    ensures cmd.deadlineAt.Some? && r > 0 ==> now + r <= cmd.deadlineAt.value
    ensures r < cmd.timeoutSeconds * SECOND ==> cmd.deadlineAt.Some? && cmd.deadlineAt.value <= now + r
  {
    var limit := cmd.timeoutSeconds * SECOND;
    if cmd.deadlineAt.None? then limit
    else
      var remaining := if cmd.deadlineAt.value > now then cmd.deadlineAt.value - now else 0;
      if limit < remaining then limit else remaining
  }

  predicate MentionsTarget(lib: Library, target: string, m: Message) {
    var t := lib.fold(lib.strip(target));
    || Contains(lib.fold(m.subject), t)
    || Contains(lib.fold(m.body), t)
    || exists r | r in m.recipients :: lib.fold(r) == t
  }

  /** `compute_fingerprint`; an empty Message-ID counts as absent. */
  function Fingerprint(lib: Library, service: string, m: Message, payload: string): string {
    if m.messageId.Some? && m.messageId.value != "" then
      lib.sha256(service + "|" + m.messageId.value + "|" + payload)
    else
      var sender := if m.sender.Some? && m.sender.value != "" then m.sender.value else "unknown";
      lib.sha256(service + "|" + sender + "|" + lib.iso(m.receivedAt) + "|" + m.subject + "|" + payload)
  }

  function Deliver(cmd: Command, lib: Library, m: Message, kind: ResultType, value: string): Option<Outcome> {
    var fp := Fingerprint(lib, cmd.service, m, value);
    if (m.messageId, fp) in cmd.excluded then None else Some(Found(kind, value, m.messageId, fp))
  }

  function AsEmail(m: Message): Email { Email(m.subject, m.body, m.receivedAt) }

  /** The n-th fetch round of a command. */
  function RoundOf(cmd: Command, lib: Library, env: Env, n: nat, now: int, deadline: int): Round {
    Round((m: Message) => MentionsTarget(lib, cmd.target, m),
          (m: Message) => MessageResult(lib.catalog, cmd.service, AsEmail(m)),
          (x: Extracted) => cmd.service == NETFLIX && x.kind == Url,
          (pos: nat) => env.resolved(n, pos),
          (m: Message, kind: ResultType, value: string) => Deliver(cmd, lib, m, kind, value),
          Cutoff(cmd.searchAfter, now, cmd.windowMinutes), deadline, env.elapse)
  }

  // ---- What a round delivers, from the command, the rules and the replies alone ----

  /** The target is part of the subject or the body, or is one of the recipients. */
  ghost predicate Addressed(lib: Library, target: string, m: Message) {
    var t := lib.fold(lib.strip(target));
    || (exists a, b :: lib.fold(m.subject) == a + t + b)
    || (exists a, b :: lib.fold(m.body) == a + t + b)
    || (exists r :: r in m.recipients && lib.fold(r) == t)
  }

  /** Received since the time the command names, or else within its window of minutes. */
  predicate InTime(cmd: Command, now: int, m: Message) {
    match cmd.searchAfter
    case Some(start) => start <= m.receivedAt
    case None => now - m.receivedAt <= cmd.windowMinutes * 60 * SECOND
  }

  /** A Netflix link is delivered as the code it resolves to, anything else as it was extracted. */
  ghost predicate Handed(cmd: Command, env: Env, n: nat, i: nat, x: Extracted, o: Outcome)
    requires o.Found?
  {
    if cmd.service == NETFLIX && x.kind == Url
    then o.kind == Code && o.value != "" && env.resolved(n, i) == Some(o.value)
    else o.kind == x.kind && o.value == x.value
  }

  /** Message `i` of round `n` delivers `o`. */
  ghost predicate Delivers(cmd: Command, lib: Library, env: Env, n: nat, i: nat, m: Message, o: Outcome) {
    && o.Found? && o.messageId == m.messageId && o.fingerprint == Fingerprint(lib, cmd.service, m, o.value)
    && (o.messageId, o.fingerprint) !in cmd.excluded
    && exists x :: Yields(lib.catalog, cmd.service, m.subject, m.body, x) && Handed(cmd, env, n, i, x, o)
  }

  ghost predicate Deliverable(cmd: Command, lib: Library, env: Env, n: nat, now: int, emails: seq<Message>, i: int,
                              o: Outcome)
  {
    && 0 <= i < |emails| && Addressed(lib, cmd.target, emails[i]) && InTime(cmd, now, emails[i])
    && Delivers(cmd, lib, env, n, i, emails[i], o)
  }

  ghost predicate Helps(cmd: Command, lib: Library, env: Env, n: nat, now: int, emails: seq<Message>, i: int) {
    exists o: Outcome :: Deliverable(cmd, lib, env, n, now, emails, i, o)
  }

  /** `o` is delivered by a message that is newer than every other that delivers anything. */
  ghost predicate NewestDelivery(cmd: Command, lib: Library, env: Env, n: nat, now: int, emails: seq<Message>, i: int,
                                 o: Outcome)
  {
    && Deliverable(cmd, lib, env, n, now, emails, i, o)
    && forall j: int :: j != i && Helps(cmd, lib, env, n, now, emails, j) ==>
         emails[i].receivedAt > emails[j].receivedAt || (emails[i].receivedAt == emails[j].receivedAt && i < j)
  }

  ghost predicate DeliversNewest(cmd: Command, lib: Library, env: Env, n: nat, now: int, emails: seq<Message>,
                                 o: Outcome)
  {
    exists i :: NewestDelivery(cmd, lib, env, n, now, emails, i, o)
  }

  ghost predicate NothingDeliverable(cmd: Command, lib: Library, env: Env, n: nat, now: int, emails: seq<Message>) {
    forall i: int :: !Helps(cmd, lib, env, n, now, emails, i)
  }

  lemma DeliveryIff(cmd: Command, lib: Library, env: Env, n: nat, now: int, deadline: int, i: nat, m: Message,
        o: Outcome)
    ensures Delivery(RoundOf(cmd, lib, env, n, now, deadline), Candidate(i, m)) == Some(o) <==>
              Delivers(cmd, lib, env, n, i, m, o)
  {
    forall x ensures MessageResult(lib.catalog, cmd.service, AsEmail(m)) == Some(x) <==>
                     Yields(lib.catalog, cmd.service, m.subject, m.body, x)
    {
      MessageResultIff(lib.catalog, cmd.service, AsEmail(m), x);
    }
    var y := MessageResult(lib.catalog, cmd.service, AsEmail(m));
    assert y.Some? ==> Yields(lib.catalog, cmd.service, m.subject, m.body, y.value);
  }

  lemma AddressedIff(lib: Library, target: string, m: Message)
    ensures MentionsTarget(lib, target, m) <==> Addressed(lib, target, m)
  {
    var t := lib.fold(lib.strip(target));
    ContainsIff(lib.fold(m.subject), t);
    ContainsIff(lib.fold(m.body), t);
  }

  /** What is acceptable in a round is what can be delivered from it. */
  lemma AcceptableIff(cmd: Command, lib: Library, env: Env, n: nat, now: int, deadline: int, emails: seq<Message>,
        i: int)
    requires 0 <= i < |emails|
    ensures Acceptable(RoundOf(cmd, lib, env, n, now, deadline), emails, i) <==>
              Helps(cmd, lib, env, n, now, emails, i)
    ensures forall o :: Deliverable(cmd, lib, env, n, now, emails, i, o) ==>
              Delivery(RoundOf(cmd, lib, env, n, now, deadline), Candidate(i, emails[i])) == Some(o)
  {
    AddressedIff(lib, cmd.target, emails[i]);
    var d := Delivery(RoundOf(cmd, lib, env, n, now, deadline), Candidate(i, emails[i]));
    forall o ensures d == Some(o) <==> Delivers(cmd, lib, env, n, i, emails[i], o) {
      DeliveryIff(cmd, lib, env, n, now, deadline, i, emails[i], o);
    }
    if Acceptable(RoundOf(cmd, lib, env, n, now, deadline), emails, i) {
      assert Deliverable(cmd, lib, env, n, now, emails, i, d.value);
    }
  }

  lemma FruitlessIff(cmd: Command, lib: Library, env: Env, n: nat, now: int, deadline: int, emails: seq<Message>)
    ensures Fruitless(RoundOf(cmd, lib, env, n, now, deadline), emails) <==>
              NothingDeliverable(cmd, lib, env, n, now, emails)
  {
    forall i | 0 <= i < |emails|
      ensures Acceptable(RoundOf(cmd, lib, env, n, now, deadline), emails, i) <==>
                Helps(cmd, lib, env, n, now, emails, i)
    {
      AcceptableIff(cmd, lib, env, n, now, deadline, emails, i);
    }
  }

  lemma FruitfulIff(cmd: Command, lib: Library, env: Env, n: nat, now: int, deadline: int, emails: seq<Message>,
        o: Outcome)
    ensures Fruitful(RoundOf(cmd, lib, env, n, now, deadline), emails, o) <==>
              DeliversNewest(cmd, lib, env, n, now, emails, o)
  {
    forall i | 0 <= i < |emails|
      ensures NewestAcceptable(RoundOf(cmd, lib, env, n, now, deadline), emails, i)
              && Delivery(RoundOf(cmd, lib, env, n, now, deadline), Candidate(i, emails[i])) == Some(o) <==>
              NewestDelivery(cmd, lib, env, n, now, emails, i, o)
    {
      NewestIff(cmd, lib, env, n, now, deadline, emails, i, o);
    }
  }

  lemma NewestIff(cmd: Command, lib: Library, env: Env, n: nat, now: int, deadline: int, emails: seq<Message>,
        i: int, o: Outcome)
    requires 0 <= i < |emails|
    ensures NewestAcceptable(RoundOf(cmd, lib, env, n, now, deadline), emails, i)
            && Delivery(RoundOf(cmd, lib, env, n, now, deadline), Candidate(i, emails[i])) == Some(o) <==>
            NewestDelivery(cmd, lib, env, n, now, emails, i, o)
  {
    var q := RoundOf(cmd, lib, env, n, now, deadline);
    forall j | 0 <= j < |emails|
      ensures Acceptable(q, emails, j) <==> Helps(cmd, lib, env, n, now, emails, j)
    {
      AcceptableIff(cmd, lib, env, n, now, deadline, emails, j);
    }
    AcceptableIff(cmd, lib, env, n, now, deadline, emails, i);
    DeliveryIff(cmd, lib, env, n, now, deadline, i, emails[i], o);
  }

  /** A message that comes again under its Message-ID with the same payload is recognised, whatever else differs. */
  lemma RedeliveryRecognised(lib: Library, service: string, a: Message, b: Message, payload: string)
    requires a.messageId == b.messageId && a.messageId.Some? && a.messageId.value != ""
    ensures Fingerprint(lib, service, a, payload) == Fingerprint(lib, service, b, payload)
  {
  }

  /** Different payloads of one message are told apart, if the hash is injective. */
  lemma PayloadsToldApart(lib: Library, service: string, m: Message, a: string, b: string)
    requires (forall s, t :: lib.sha256(s) == lib.sha256(t) ==> s == t) && a != b
    ensures Fingerprint(lib, service, m, a) != Fingerprint(lib, service, m, b)
  {
    if m.messageId.Some? && m.messageId.value != "" {
      SuffixToldApart(service + "|" + m.messageId.value + "|", a, b);
    } else {
      var sender := if m.sender.Some? && m.sender.value != "" then m.sender.value else "unknown";
      SuffixToldApart(service + "|" + sender + "|" + lib.iso(m.receivedAt) + "|" + m.subject + "|", a, b);
    }
  }

  lemma SuffixToldApart(prefix: string, a: string, b: string)
    requires a != b
    ensures prefix + a != prefix + b
  {
    assert (prefix + a)[|prefix|..] == a && (prefix + b)[|prefix|..] == b;
  }

  function Parsed(c: Candidate): Email { AsEmail(c.msg) }

  /** What `extract_newest_with_source` promises about positions is what the scan needs to know. */
  lemma SourceIsNewestYielding(q: Round, yielded: Email -> Option<Extracted>, s: seq<Candidate>, emails: seq<Email>,
                               source: nat)
    requires |emails| == |s| && forall i :: 0 <= i < |s| ==> emails[i] == AsEmail(s[i].msg)
    requires forall i :: 0 <= i < |s| ==> q.extract(s[i].msg) == yielded(emails[i])
    requires source < |s| && emails[source].receivedAt >= q.cutoff && yielded(emails[source]).Some?
    requires forall j :: 0 <= j < |s| && j != source && emails[j].receivedAt >= q.cutoff && yielded(emails[j]).Some?
               ==> Newer(emails, source, j)
    ensures NewestYielding(q, s, source)
  {
    forall j | 0 <= j < |s| && j != source && s[j].msg.receivedAt >= q.cutoff && q.extract(s[j].msg).Some?
      ensures s[source].msg.receivedAt > s[j].msg.receivedAt
              || (s[source].msg.receivedAt == s[j].msg.receivedAt && source < j)
    {
      assert Newer(emails, source, j);
    }
  }

  /** `extract_newest_with_source` on the remaining candidates. */
  method PickNewest(q: Round, cmd: Command, lib: Library, env: Env, n: nat, now: int, deadline: int, s: seq<Candidate>)
    returns (r: Option<ExtractedEmail>)
    requires q == RoundOf(cmd, lib, env, n, now, deadline)
    ensures r.None? ==> forall i :: 0 <= i < |s| && s[i].msg.receivedAt >= q.cutoff ==> q.extract(s[i].msg).None?
    ensures r.Some? ==> r.value.source < |s| && NewestYielding(q, s, r.value.source)
                        && q.extract(s[r.value.source].msg) == Some(r.value.result)
  {
    var emails := Map(Parsed, s);
    r := ExtractNewestWithSource(lib.catalog, emails, cmd.service, cmd.windowMinutes, now, cmd.searchAfter);
    ghost var yielded := (e: Email) => MessageResult(lib.catalog, cmd.service, e);
    forall i | 0 <= i < |s| ensures emails[i] == AsEmail(s[i].msg) && q.extract(s[i].msg) == yielded(emails[i]) {
    }
    if r.Some? {
      SourceIsNewestYielding(q, yielded, s, emails, r.value.source);
    }
  }

  /** Resolution, fingerprint and exclusion test for the extracted message. */
  method JudgeNewest(q: Round, cmd: Command, lib: Library, env: Env, n: nat, now: int, deadline: int,
                     picked: Candidate, result: Extracted, w: World)
    returns (v: Verdict, w': World)
    requires q == RoundOf(cmd, lib, env, n, now, deadline)
    requires q.extract(picked.msg) == Some(result)
    ensures (v, w') == Judge(q, picked, w)
  {
    var value, kind := result.value, result.kind;
    w' := w;
    if cmd.service == NETFLIX && kind == Url {
      w' := Pass(env.elapse, w', 0);
      var remaining := deadline - w'.clock;
      if remaining <= 0 {
        return Late, w';
      }
      var (late, resumed) := Await(env.elapse, w', 0, remaining);
      w' := resumed;
      if late {
        return Late, w';
      }
      var resolved := env.resolved(n, picked.pos);
      value := if resolved.Some? then resolved.value else "";
      if value == "" {
        return Reject, w';
      }
      kind := Code;
    }
    var fingerprint := Fingerprint(lib, cmd.service, picked.msg, value);
    if (picked.msg.messageId, fingerprint) in cmd.excluded {
      return Reject, w';
    }
    return Accept(Found(kind, value, picked.msg.messageId, fingerprint)), w';
  }

  /** The inner `while candidates` loop: extract the newest, judge it, pop it, sort again. */
  method SearchRound(q: Round, cmd: Command, lib: Library, env: Env, n: nat, now: int, deadline: int,
                     emails: seq<Message>, w: World)
    returns (r: RoundResult, w': World)
    requires q == RoundOf(cmd, lib, env, n, now, deadline)
    ensures (r, w') == Scan(q, ScanOrder(q.cutoff, Targets(q, emails, 0)), w)
    ensures r.Nothing? ==> Fruitless(q, emails)
    ensures r.Hit? ==> Fruitful(q, emails, r.outcome)
    ensures w'.clock >= w.clock && w'.calls == w.calls
    ensures r.OutOfTime? ==> w'.clock >= deadline
    ensures r.Hit? && w.clock <= deadline ==> w'.clock <= deadline
  {
    ScanFindsNewestAcceptable(q, emails, w);
    ScanFindsFirst(q, ScanOrder(q.cutoff, Targets(q, emails, 0)), w);
    var candidates := Targets(q, emails, 0);
    w' := w;
    while candidates != []
      invariant Ascending(Position, candidates)
      invariant Scan(q, ScanOrder(q.cutoff, candidates), w') == Scan(q, ScanOrder(q.cutoff, Targets(q, emails, 0)), w)
      decreases |candidates|
    {
      var extracted := PickNewest(q, cmd, lib, env, n, now, deadline, candidates);
      if extracted.None? {
        NothingYields(q, candidates, w');
        return Nothing, w';
      }
      var source := extracted.value.source;
      var verdict, judged := JudgeNewest(q, cmd, lib, env, n, now, deadline,
                                         candidates[source], extracted.value.result, w');
      ScanStep(q, candidates, source, w');
      w' := judged;
      match verdict
      case Accept(outcome) => return Hit(outcome), w';
      case Late => return OutOfTime, w';
      case Reject => candidates := candidates[..source] + candidates[source + 1..];
    }
    NothingYields(q, candidates, w');
    r := Nothing;
  }

  datatype FetchResult = Fetched(emails: seq<Message>) | GaveUp | Raised(code: string) | TimedOut

  /** `_fetch_with_retry` under the enclosing `asyncio.wait_for(..., timeout=budget)`. */
  method FetchWithRetry(env: Env, w: World, budget: int) returns (r: FetchResult, w': World)
    requires budget >= 0
    ensures w.calls < w'.calls <= w.calls + MAX_FETCH_ATTEMPTS
    ensures w.clock <= w'.clock <= w.clock + budget
    ensures forall c :: w.calls <= c < w'.calls - 1 ==> env.reply(c).Transient?
    ensures r.Fetched? ==> env.reply(w'.calls - 1) == Emails(r.emails)
    ensures r.Raised? ==> env.reply(w'.calls - 1) == NonTransient(r.code)
    ensures r.GaveUp? ==> w'.calls == w.calls + MAX_FETCH_ATTEMPTS && env.reply(w'.calls - 1).Transient?
    ensures r.TimedOut? ==> w'.clock == w.clock + budget
    ensures !r.TimedOut? && w'.calls == w.calls + 2 ==> w'.clock >= w.clock + BASE_RETRY_DELAY
    ensures !r.TimedOut? && w'.calls == w.calls + 3 ==> w'.clock >= w.clock + 3 * BASE_RETRY_DELAY
  {
    var deadline := w.clock + budget;
    var attempt, power := 0, 1;
    w' := w;
    while true
      invariant 0 <= attempt < MAX_FETCH_ATTEMPTS && w'.calls == w.calls + attempt
      invariant power == if attempt == 0 then 1 else 2 * attempt
      invariant w.clock + BASE_RETRY_DELAY * (power - 1) <= w'.clock <= deadline
      invariant forall c :: w.calls <= c < w'.calls ==> env.reply(c).Transient?
      decreases MAX_FETCH_ATTEMPTS - attempt
    {
      var (late, replied) := Await(env.elapse, w', 0, deadline - w'.clock);
      w' := replied.(calls := replied.calls + 1);
      if late {
        return TimedOut, w';
      }
      match env.reply(w'.calls - 1)
      case Emails(emails) =>
        return Fetched(emails), w';
      case NonTransient(code) =>
        return Raised(code), w';
      case Transient =>
        if attempt == MAX_FETCH_ATTEMPTS - 1 {
          return GaveUp, w';
        }
        var (cut, rested) := Await(env.elapse, w', BASE_RETRY_DELAY * power, deadline - w'.clock);
        w' := rested;
        if cut {
          return TimedOut, w';
        }
        attempt, power := attempt + 1, power * 2;
    }
  }

  /** The least number of steps of length `b` that cover `a`. */
  function CeilDiv(a: nat, b: nat): (r: nat)
    requires b > 0
    ensures a <= r * b < a + b
  {
    (a + b - 1) / b
  }

  lemma OneMoreRound(rounds: nat, span: nat)
    requires rounds * POLL_INTERVAL < span
    ensures rounds + 1 <= CeilDiv(span, POLL_INTERVAL)
  {
  }

  /** `deadline = monotonic() + _effective_timeout_seconds(command, now)`. */
  function Deadline(cmd: Command, env: Env, now: int, start: World): int {
    Pass(env.elapse, start, 0).clock + EffectiveTimeout(cmd, now)
  }

  /** A delivered Netflix result is a code, and a delivered result was not excluded. */
  lemma FruitfulOutcome(cmd: Command, lib: Library, env: Env, n: nat, now: int, deadline: int,
        emails: seq<Message>, o: Outcome)
    requires Fruitful(RoundOf(cmd, lib, env, n, now, deadline), emails, o)
    ensures o.Found? && (o.messageId, o.fingerprint) !in cmd.excluded
    ensures cmd.service == NETFLIX ==> o.kind == Code
  {
    var q := RoundOf(cmd, lib, env, n, now, deadline);
    var i :| 0 <= i < |emails| && NewestAcceptable(q, emails, i) && Delivery(q, Candidate(i, emails[i])) == Some(o);
    var x := q.extract(emails[i]).value;
    var v := if q.isLink(x) then q.resolved(i).value else x.value;
    var k := if q.isLink(x) then Code else x.kind;
    assert Deliver(cmd, lib, emails[i], k, v) == Some(o);
  }

  /** The messages that provider call `c` returned. */
  function Answer(env: Env, c: nat): seq<Message> {
    if env.reply(c).Emails? then env.reply(c).emails else []
  }

  datatype PollResult = Done(outcome: Outcome) | NoMatch

  /** One turn of the outer loop up to the sleep: fetch with retries, then search what was fetched. */
  method PollRound(cmd: Command, lib: Library, env: Env, n: nat, now: int, deadline: int, w: World)
    returns (r: PollResult, w': World, fetched: seq<nat>)
    requires w.clock <= deadline
    ensures w.clock <= w'.clock && w.calls < w'.calls <= w.calls + MAX_FETCH_ATTEMPTS
    ensures fetched == [] || fetched == [w'.calls - 1]
    ensures fetched != [] ==> env.reply(w'.calls - 1).Emails?
    ensures r.NoMatch? ==>
              fetched != [] && Fruitless(RoundOf(cmd, lib, env, n, now, deadline), Answer(env, w'.calls - 1))
    ensures r.Done? ==>
              match r.outcome
              case NotFound => false
              case Found(kind, _, id, fp) =>
                && fetched != []
                && Fruitful(RoundOf(cmd, lib, env, n, now, deadline), Answer(env, w'.calls - 1), r.outcome)
                && (id, fp) !in cmd.excluded && (cmd.service == NETFLIX ==> kind == Code)
                && w'.clock <= deadline
              case FetchTimeout => w'.clock >= deadline
              case ResolveTimeout => w'.clock >= deadline
              case FetchFailed => w'.calls == w.calls + MAX_FETCH_ATTEMPTS
                                  && forall c :: w.calls <= c < w'.calls ==> env.reply(c).Transient?
              case Terminal(code) => env.reply(w'.calls - 1) == NonTransient(code)
  {
    var fetch, answered := FetchWithRetry(env, w, deadline - w.clock);
    w', fetched := answered, [];
    match fetch {
      case TimedOut => r := Done(FetchTimeout);
      case Raised(code) => r := Done(Terminal(code));
      case GaveUp => r := Done(FetchFailed);
      case Fetched(emails) =>
        var q := RoundOf(cmd, lib, env, n, now, deadline);
        fetched := [w'.calls - 1];
        var result, searched := SearchRound(q, cmd, lib, env, n, now, deadline, emails, w');
        w' := searched;
        match result {
          case OutOfTime => r := Done(ResolveTimeout);
          case Nothing => r := NoMatch;
          case Hit(outcome) =>
            FruitfulOutcome(cmd, lib, env, n, now, deadline, emails, outcome);
            r := Done(outcome);
        }
    }
  }

  /** The rounds listed in `fetched` were all answered, and none held an acceptable message. */
  ghost predicate AllFruitless(cmd: Command, lib: Library, env: Env, now: int, deadline: int, fetched: seq<nat>) {
    forall n :: 0 <= n < |fetched| ==>
      && env.reply(fetched[n]).Emails?
      && Fruitless(RoundOf(cmd, lib, env, n, now, deadline), Answer(env, fetched[n]))
  }

  lemma AllFruitlessExtends(cmd: Command, lib: Library, env: Env, now: int, deadline: int, fetched: seq<nat>, c: nat)
    requires AllFruitless(cmd, lib, env, now, deadline, fetched) && env.reply(c).Emails?
    requires Fruitless(RoundOf(cmd, lib, env, |fetched|, now, deadline), Answer(env, c))
    ensures AllFruitless(cmd, lib, env, now, deadline, fetched + [c])
  {
  }

  lemma AllFruitlessPrefix(cmd: Command, lib: Library, env: Env, now: int, deadline: int, fetched: seq<nat>)
    requires AllFruitless(cmd, lib, env, now, deadline, fetched)
    ensures fetched != [] ==> AllFruitless(cmd, lib, env, now, deadline, fetched[..|fetched| - 1])
  {
  }

  /** The pause between two rounds: none past the deadline, and never beyond it. */
  method RestUntilNext(env: Env, w: World, deadline: int) returns (w': World, over: bool)
    ensures w'.calls == w.calls && w'.clock >= w.clock
    ensures over ==> w'.clock >= deadline
    ensures !over ==> w'.clock >= deadline || w'.clock >= w.clock + POLL_INTERVAL
  {
    w' := Pass(env.elapse, w, 0);
    var remaining := deadline - w'.clock;
    over := remaining <= 0;
    if !over {
      w' := Pass(env.elapse, w', if POLL_INTERVAL < remaining then POLL_INTERVAL else remaining);
    }
  }

  /** The polling loop, from `start` to a given deadline. */
  method PollUntil(cmd: Command, lib: Library, env: Env, now: int, deadline: int, start: World)
    returns (o: Outcome, end: World, rounds: nat, fetched: seq<nat>)
    requires start.clock <= deadline
    ensures rounds <= CeilDiv(deadline - start.clock, POLL_INTERVAL)
    ensures start.calls <= end.calls <= start.calls + MAX_FETCH_ATTEMPTS * rounds
    ensures rounds - 1 <= |fetched| <= rounds
    ensures forall n :: 0 <= n < |fetched| ==> start.calls <= fetched[n] < end.calls
    ensures rounds > 0 ==> AllFruitless(cmd, lib, env, now, deadline, fetched[..rounds - 1])
    ensures o.NotFound? ==>
              && |fetched| == rounds && end.clock >= deadline
              && AllFruitless(cmd, lib, env, now, deadline, fetched)
    ensures o.Found? ==>
              && |fetched| == rounds > 0 && env.reply(fetched[rounds - 1]).Emails?
              && Fruitful(RoundOf(cmd, lib, env, rounds - 1, now, deadline),
                          Answer(env, fetched[rounds - 1]), o)
              && (o.messageId, o.fingerprint) !in cmd.excluded
              && (cmd.service == NETFLIX ==> o.kind == Code)
              && end.clock <= deadline
    ensures o.FetchTimeout? || o.ResolveTimeout? ==> end.clock >= deadline
    ensures o.FetchFailed? ==> end.calls >= start.calls + MAX_FETCH_ATTEMPTS
                                && forall c :: end.calls - MAX_FETCH_ATTEMPTS <= c < end.calls ==>
                                     env.reply(c).Transient?
    ensures o.Terminal? ==> end.calls > start.calls && env.reply(end.calls - 1) == NonTransient(o.code)
  {
    end, rounds, fetched := start, 0, [];
    ghost var t0 := start.clock;
    while true
      invariant start.calls <= end.calls <= start.calls + MAX_FETCH_ATTEMPTS * rounds
      invariant |fetched| == rounds <= CeilDiv(deadline - t0, POLL_INTERVAL)
      invariant end.clock >= deadline || end.clock >= t0 + rounds * POLL_INTERVAL
      invariant forall n :: 0 <= n < |fetched| ==> start.calls <= fetched[n] < end.calls
      invariant AllFruitless(cmd, lib, env, now, deadline, fetched)
      decreases deadline - end.clock
    {
      end := Pass(env.elapse, end, 0);
      if deadline - end.clock <= 0 {
        break;
      }
      OneMoreRound(rounds, deadline - t0);
      var polled, answered, call := PollRound(cmd, lib, env, rounds, now, deadline, end);
      assert (fetched + call)[..rounds] == fetched;
      assert AllFruitless(cmd, lib, env, now, deadline, (fetched + call)[..rounds]);
      end, rounds := answered, rounds + 1;
      if polled.Done? {
        return polled.outcome, end, rounds, fetched + call;
      }
      AllFruitlessExtends(cmd, lib, env, now, deadline, fetched, call[0]);
      fetched := fetched + call;
      var rested, over := RestUntilNext(env, end, deadline);
      end := rested;
      if over {
        break;
      }
    }
    AllFruitlessPrefix(cmd, lib, env, now, deadline, fetched);
    o := NotFound;
  }

  /** Round `n` was answered, and nothing could be delivered from it. */
  ghost predicate Unhelpful(cmd: Command, lib: Library, env: Env, now: int, n: int, fetched: seq<nat>) {
    && 0 <= n < |fetched| && env.reply(fetched[n]).Emails?
    && NothingDeliverable(cmd, lib, env, n, now, env.reply(fetched[n]).emails)
  }

  lemma AllUnhelpful(cmd: Command, lib: Library, env: Env, now: int, deadline: int, fetched: seq<nat>, k: nat)
    requires k <= |fetched| && AllFruitless(cmd, lib, env, now, deadline, fetched[..k])
    ensures forall n :: 0 <= n < k ==> Unhelpful(cmd, lib, env, now, n, fetched)
  {
    forall n | 0 <= n < k ensures Unhelpful(cmd, lib, env, now, n, fetched) {
      assert fetched[..k][n] == fetched[n];
      FruitlessIff(cmd, lib, env, n, now, deadline, Answer(env, fetched[n]));
    }
  }

  /**
   `execute_lookup`.  `rounds` counts the fetch rounds started; `fetched` lists, round by round, the
   provider calls that answered them.
   */
  method ExecuteLookup(cmd: Command, lib: Library, env: Env, now: int, start: World)
    returns (o: Outcome, end: World, rounds: nat, fetched: seq<nat>)
    ensures rounds <= CeilDiv(EffectiveTimeout(cmd, now), POLL_INTERVAL)
    ensures start.calls <= end.calls <= start.calls + MAX_FETCH_ATTEMPTS * rounds
    ensures rounds - 1 <= |fetched| <= rounds
    ensures forall n :: 0 <= n < |fetched| ==> start.calls <= fetched[n] < end.calls
    ensures forall n :: 0 <= n < rounds - 1 ==> Unhelpful(cmd, lib, env, now, n, fetched)
    ensures o.NotFound? ==>
              && |fetched| == rounds && end.clock >= Deadline(cmd, env, now, start)
              && forall n :: 0 <= n < rounds ==> Unhelpful(cmd, lib, env, now, n, fetched)
    ensures o.Found? ==>
              && |fetched| == rounds > 0 && env.reply(fetched[rounds - 1]).Emails?
              && end.clock <= Deadline(cmd, env, now, start)
              && DeliversNewest(cmd, lib, env, rounds - 1, now, env.reply(fetched[rounds - 1]).emails, o)
    ensures o.FetchTimeout? || o.ResolveTimeout? ==> end.clock >= Deadline(cmd, env, now, start)
    ensures o.FetchFailed? ==> end.calls >= start.calls + MAX_FETCH_ATTEMPTS
                                && forall c :: end.calls - MAX_FETCH_ATTEMPTS <= c < end.calls ==>
                                     env.reply(c).Transient?
    ensures o.Terminal? ==> end.calls > start.calls && env.reply(end.calls - 1) == NonTransient(o.code)
  {
    var begun := Pass(env.elapse, start, 0);
    var deadline := begun.clock + EffectiveTimeout(cmd, now);
    o, end, rounds, fetched := PollUntil(cmd, lib, env, now, deadline, begun);
    if rounds > 0 {
      AllUnhelpful(cmd, lib, env, now, deadline, fetched, rounds - 1);
    }
    if o.NotFound? {
      assert fetched[..rounds] == fetched;
      AllUnhelpful(cmd, lib, env, now, deadline, fetched, rounds);
    }
    if o.Found? {
      FruitfulIff(cmd, lib, env, rounds - 1, now, deadline, Answer(env, fetched[rounds - 1]), o);
    }
  }
}
