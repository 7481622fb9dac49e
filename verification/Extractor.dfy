/**
 Model of worker/app/extractors/extractor.py.

 A service entry carries its subject patterns, its body normaliser and its ordered extraction
 rules.  A rule's regular expression is an arbitrary partial function from a text to its first
 capture group.  Times are integers (microseconds, UTC).
 */
module Extractor {
  import opened Common
  import opened Sorting

  datatype ResultType = Code | Url
  datatype Extracted = Extracted(value: string, kind: ResultType)
  datatype Rule = Rule(search: string -> Option<string>, kind: ResultType)
  datatype Entry = Entry(subjectPatterns: seq<string>, normalize: string -> string, rules: seq<Rule>)
  type Catalog = string -> Option<Entry>

  datatype Email = Email(subject: string, body: string, receivedAt: int)
  datatype ExtractedEmail = ExtractedEmail(result: Extracted, source: nat)

  const MINUTE := 60 * 1_000_000

  predicate MatchSubject(catalog: Catalog, subject: string, service: string) {
    var entry := catalog(service);
    entry.Some? && exists p | p in entry.value.subjectPatterns :: Contains(subject, p)
  }

  /** The texts tried, in order: the body as received, then its normal form if that differs. */
  function BodiesToTry(entry: Entry, body: string): seq<string> {
    [body] + if entry.normalize(body) != body then [entry.normalize(body)] else []
  }

  /** Rule `k` is the first rule that matches text `b` of `bodies`, and no earlier text matches any rule. */
  predicate FirstMatch(entry: Entry, bodies: seq<string>, b: nat, k: nat)
    requires b < |bodies| && k < |entry.rules|
  {
    && entry.rules[k].search(bodies[b]).Some?
    && (forall j :: 0 <= j < k ==> entry.rules[j].search(bodies[b]).None?)
    && (forall c, j :: 0 <= c < b && 0 <= j < |entry.rules| ==> entry.rules[j].search(bodies[c]).None?)
  }

  function MatchIn(rules: seq<Rule>, body: string): Option<Extracted> {
    if rules == [] then None
    else
      var m := rules[0].search(body);
      if m.Some? then Some(Extracted(m.value, rules[0].kind)) else MatchIn(rules[1..], body)
  }

  function MatchAny(rules: seq<Rule>, bodies: seq<string>): Option<Extracted> {
    if bodies == [] then None
    else
      var m := MatchIn(rules, bodies[0]);
      if m.Some? then m else MatchAny(rules, bodies[1..])
  }

  /** What a body yields for a service when the message has the given subject. */
  function Extraction(catalog: Catalog, service: string, subject: string, body: string): Option<Extracted> {
    if !MatchSubject(catalog, subject, service) then None
    else MatchAny(catalog(service).value.rules, BodiesToTry(catalog(service).value, body))
  }

  /** What a message yields: its body first, its own subject line as a second chance. */
  function MessageResult(catalog: Catalog, service: string, email: Email): Option<Extracted> {
    var fromBody := Extraction(catalog, service, email.subject, email.body);
    if fromBody.Some? then fromBody
    else Extraction(catalog, service, email.subject, email.subject)
  }

  // ---- The same, said without the order of the code ----

  /** The subject of a message contains one of the service's patterns. */
  ghost predicate SubjectFits(entry: Entry, subject: string) {
    exists p, a, b :: p in entry.subjectPatterns && subject == a + p + b
  }

  /** Rule `k` is the first that matches `text`, and `x` is what it captures there. */
  ghost predicate FirstCapture(rules: seq<Rule>, text: string, k: int, x: Extracted) {
    && 0 <= k < |rules|
    && rules[k].search(text) == Some(x.value) && rules[k].kind == x.kind
    && forall j :: 0 <= j < k ==> rules[j].search(text).None?
  }

  ghost predicate NoCapture(rules: seq<Rule>, text: string) {
    forall j :: 0 <= j < |rules| ==> rules[j].search(text).None?
  }

  /** `x` is captured from the text as received, or from its normal form if no rule matches it as received. */
  ghost predicate Captured(catalog: Catalog, service: string, subject: string, text: string, x: Extracted) {
    && catalog(service).Some?
    && var entry := catalog(service).value;
       && SubjectFits(entry, subject)
       && ((exists k :: FirstCapture(entry.rules, text, k, x))
           || (NoCapture(entry.rules, text) && exists k :: FirstCapture(entry.rules, entry.normalize(text), k, x)))
  }

  /** `x` is captured from the body, or from the subject line if the body yields nothing. */
  ghost predicate Yields(catalog: Catalog, service: string, subject: string, body: string, x: Extracted) {
    || Captured(catalog, service, subject, body, x)
    || ((forall y :: !Captured(catalog, service, subject, body, y)) && Captured(catalog, service, subject, subject, x))
  }

  lemma MatchSubjectIff(catalog: Catalog, subject: string, service: string)
    ensures MatchSubject(catalog, subject, service) <==>
              catalog(service).Some? && SubjectFits(catalog(service).value, subject)
  {
    if catalog(service).Some? {
      forall p ensures Contains(subject, p) <==> exists a, b :: subject == a + p + b {
        ContainsIff(subject, p);
      }
    }
  }

  lemma {:induction false} MatchInIff(rules: seq<Rule>, text: string, x: Extracted)
    ensures MatchIn(rules, text) == Some(x) <==> exists k :: FirstCapture(rules, text, k, x)
    ensures MatchIn(rules, text).None? <==> NoCapture(rules, text)
  {
    if rules != [] {
      MatchInIff(rules[1..], text, x);
      if rules[0].search(text).None? {
        if exists k :: FirstCapture(rules[1..], text, k, x) {
          var k :| FirstCapture(rules[1..], text, k, x);
          assert FirstCapture(rules, text, k + 1, x);
        }
        if exists k :: FirstCapture(rules, text, k, x) {
          var k :| FirstCapture(rules, text, k, x);
          assert FirstCapture(rules[1..], text, k - 1, x);
        }
        forall j | 0 <= j < |rules| && NoCapture(rules[1..], text) ensures rules[j].search(text).None? {
          assert j > 0 ==> rules[j] == rules[1..][j - 1];
        }
        forall j | 0 <= j < |rules| - 1 && NoCapture(rules, text) ensures rules[1..][j].search(text).None? {
          assert rules[1..][j] == rules[j + 1];
        }
      } else {
        assert MatchIn(rules, text) == Some(x) ==> FirstCapture(rules, text, 0, x);
        assert forall k :: FirstCapture(rules, text, k, x) ==> k == 0;
      }
    }
  }

  lemma ExtractionIff(catalog: Catalog, service: string, subject: string, text: string, x: Extracted)
    ensures Extraction(catalog, service, subject, text) == Some(x) <==> Captured(catalog, service, subject, text, x)
  {
    MatchSubjectIff(catalog, subject, service);
    if MatchSubject(catalog, subject, service) {
      var entry := catalog(service).value;
      MatchInIff(entry.rules, text, x);
      MatchInIff(entry.rules, entry.normalize(text), x);
      MatchAnyIs(entry, text);
    }
  }

  lemma MatchAnyIs(entry: Entry, text: string)
    ensures MatchAny(entry.rules, BodiesToTry(entry, text)) ==
              if MatchIn(entry.rules, text).Some? then MatchIn(entry.rules, text)
              else MatchIn(entry.rules, entry.normalize(text))
  {
    var rest := BodiesToTry(entry, text)[1..];
    assert rest == if entry.normalize(text) != text then [entry.normalize(text)] else [];
    assert MatchAny(entry.rules, []).None?;
    if rest != [] {
      assert rest[1..] == [];
      assert MatchAny(entry.rules, rest) == MatchIn(entry.rules, entry.normalize(text));
    }
  }

  /** What a message yields, in terms of patterns and captures alone. */
  lemma MessageResultIff(catalog: Catalog, service: string, email: Email, x: Extracted)
    ensures MessageResult(catalog, service, email) == Some(x) <==>
              Yields(catalog, service, email.subject, email.body, x)
  {
    forall y ensures Extraction(catalog, service, email.subject, email.body) == Some(y) <==>
                     Captured(catalog, service, email.subject, email.body, y)
    {
      ExtractionIff(catalog, service, email.subject, email.body, y);
    }
    ExtractionIff(catalog, service, email.subject, email.subject, x);
    var fromBody := Extraction(catalog, service, email.subject, email.body);
    assert fromBody.Some? ==> Captured(catalog, service, email.subject, email.body, fromBody.value);
  }

  lemma {:induction false} MatchInSkip(rules: seq<Rule>, body: string, k: nat)
    requires k <= |rules| && forall j :: 0 <= j < k ==> rules[j].search(body).None?
    ensures MatchIn(rules, body) == MatchIn(rules[k..], body)
  {
    if k > 0 {
      MatchInSkip(rules, body, k - 1);
      assert rules[k - 1..][0] == rules[k - 1] && rules[k - 1..][1..] == rules[k..];
    } else {
      assert rules[0..] == rules;
    }
  }

  lemma {:induction false} MatchAnySkip(rules: seq<Rule>, bodies: seq<string>, b: nat)
    requires b <= |bodies| && forall c :: 0 <= c < b ==> MatchIn(rules, bodies[c]).None?
    ensures MatchAny(rules, bodies) == MatchAny(rules, bodies[b..])
  {
    if b > 0 {
      MatchAnySkip(rules, bodies, b - 1);
      assert bodies[b - 1..][0] == bodies[b - 1] && bodies[b - 1..][1..] == bodies[b..];
    } else {
      assert bodies[0..] == bodies;
    }
  }

  /** `extract_from_body`: nested early-return loops over the texts and the rules. */
  method ExtractFromBody(catalog: Catalog, body: string, service: string, subject: string)
    returns (r: Option<Extracted>)
    ensures r == Extraction(catalog, service, subject, body)
    ensures r.Some? ==> catalog(service).Some? &&
                        var entry := catalog(service).value;
                        var bodies := BodiesToTry(entry, body);
                        exists b, k {:trigger FirstMatch(entry, bodies, b, k)} ::
                          && 0 <= b < |bodies| && 0 <= k < |entry.rules| && FirstMatch(entry, bodies, b, k)
                          && r.value == Extracted(entry.rules[k].search(bodies[b]).value, entry.rules[k].kind)
  {
    if !MatchSubject(catalog, subject, service) {
      return None;
    }
    var entry := catalog(service).value;
    var bodies := BodiesToTry(entry, body);
    var b := 0;
    while b < |bodies|
      invariant 0 <= b <= |bodies|
      invariant forall c :: 0 <= c < b ==> MatchIn(entry.rules, bodies[c]).None?
      invariant forall c, j :: 0 <= c < b && 0 <= j < |entry.rules| ==> entry.rules[j].search(bodies[c]).None?
    {
      var k := 0;
      while k < |entry.rules|
        invariant 0 <= k <= |entry.rules|
        invariant forall j :: 0 <= j < k ==> entry.rules[j].search(bodies[b]).None?
      {
        var m := entry.rules[k].search(bodies[b]);
        if m.Some? {
          MatchInSkip(entry.rules, bodies[b], k);
          MatchAnySkip(entry.rules, bodies, b);
          assert FirstMatch(entry, bodies, b, k);
          return Some(Extracted(m.value, entry.rules[k].kind));
        }
        k := k + 1;
      }
      MatchInSkip(entry.rules, bodies[b], k);
      b := b + 1;
    }
    MatchAnySkip(entry.rules, bodies, b);
    return None;
  }

  /** Messages received before the cutoff are ignored. */
  function Cutoff(searchAfter: Option<int>, now: int, maxAgeMinutes: int): int {
    if searchAfter.Some? then searchAfter.value else now - maxAgeMinutes * MINUTE
  }

  /** Message `i` is taken before message `j`: received later, or at the same time and listed earlier. */
  predicate Newer(emails: seq<Email>, i: int, j: int)
    requires 0 <= i < |emails| && 0 <= j < |emails|
  {
    emails[i].receivedAt > emails[j].receivedAt || (emails[i].receivedAt == emails[j].receivedAt && i < j)
  }

  predicate Eligible(catalog: Catalog, service: string, cutoff: int, email: Email) {
    email.receivedAt >= cutoff && MessageResult(catalog, service, email).Some?
  }

  type Indexed = (nat, Email)

  /** `enumerate` with the cutoff test of the comprehension. */
  function InWindow(emails: seq<Email>, cutoff: int, from: nat): (r: seq<Indexed>)
    requires from <= |emails|
    ensures forall x :: x in r <==> from <= x.0 < |emails| && x.1 == emails[x.0] && x.1.receivedAt >= cutoff
    ensures Ascending((x: Indexed) => x.0, r)
    decreases |emails| - from
  {
    if from == |emails| then []
    else if emails[from].receivedAt >= cutoff then [(from, emails[from])] + InWindow(emails, cutoff, from + 1)
    else InWindow(emails, cutoff, from + 1)
  }

  /** The sort key of `candidates.sort(..., reverse=True)`. */
  predicate Later(a: Indexed, b: Indexed) {
    a.1.receivedAt > b.1.receivedAt
  }

  function NewestFirst(emails: seq<Email>, cutoff: int): seq<Indexed> {
    Sort(Later, InWindow(emails, cutoff, 0))
  }

  /** Exactly the messages at or after the cutoff with their indexes, newest first, ties in list order. */
  ghost predicate Arranged(emails: seq<Email>, cutoff: int, s: seq<Indexed>) {
    && (forall x :: x in s <==> 0 <= x.0 < |emails| && x.1 == emails[x.0] && x.1.receivedAt >= cutoff)
    && (forall i, j :: 0 <= i < j < |s| ==> s[i] in s && s[j] in s && Newer(emails, s[i].0, s[j].0))
  }

  lemma NewestFirstOrder(emails: seq<Email>, cutoff: int)
    ensures Arranged(emails, cutoff, NewestFirst(emails, cutoff))
  {
    var rank := (x: Indexed) => x.0;
    SameElements(Later, InWindow(emails, cutoff, 0));
    SortStable(Later, rank, InWindow(emails, cutoff, 0));
    var s := NewestFirst(emails, cutoff);
    forall i, j | 0 <= i < j < |s| ensures Newer(emails, s[i].0, s[j].0) {
      assert Precedes(Later, rank, s[i], s[j]);
      assert s[i] in s && s[j] in s;
    }
  }

  /** The first message of that order that yields a result is newer than every other that does. */
  lemma FirstYieldIsNewest(catalog: Catalog, service: string, emails: seq<Email>, cutoff: int, s: seq<Indexed>, i: nat)
    requires Arranged(emails, cutoff, s) && i < |s| && s[i] in s
    requires forall j :: 0 <= j < i ==> MessageResult(catalog, service, s[j].1).None?
    ensures forall j :: 0 <= j < |emails| && j != s[i].0 && Eligible(catalog, service, cutoff, emails[j]) ==>
              Newer(emails, s[i].0, j)
  {
    forall j | 0 <= j < |emails| && j != s[i].0 && Eligible(catalog, service, cutoff, emails[j])
      ensures Newer(emails, s[i].0, j)
    {
      assert (j, emails[j]) in s;
      var p :| 0 <= p < |s| && s[p] == (j, emails[j]);
    }
  }

  lemma NothingEligible(catalog: Catalog, service: string, emails: seq<Email>, cutoff: int, s: seq<Indexed>)
    requires Arranged(emails, cutoff, s)
    requires forall j :: 0 <= j < |s| ==> MessageResult(catalog, service, s[j].1).None?
    ensures forall j :: 0 <= j < |emails| ==> !Eligible(catalog, service, cutoff, emails[j])
  {
    forall j | 0 <= j < |emails| ensures !Eligible(catalog, service, cutoff, emails[j]) {
      if emails[j].receivedAt >= cutoff {
        assert (j, emails[j]) in s;
      }
    }
  }

  /** The body of a message, then its subject line. */
  method ExtractFromMessage(catalog: Catalog, service: string, email: Email) returns (r: Option<Extracted>)
    ensures r == MessageResult(catalog, service, email)
  {
    r := ExtractFromBody(catalog, email.body, service, email.subject);
    if r.None? {
      r := ExtractFromBody(catalog, email.subject, service, email.subject);
    }
  }

  /** `extract_newest_with_source`: the newest message inside the window that yields a result. */
  method ExtractNewestWithSource(catalog: Catalog, emails: seq<Email>, service: string,
                                 maxAgeMinutes: int, now: int, searchAfter: Option<int>)
    returns (r: Option<ExtractedEmail>)
    ensures r.None? ==> forall i :: 0 <= i < |emails| ==>
                          !Eligible(catalog, service, Cutoff(searchAfter, now, maxAgeMinutes), emails[i])
    ensures r.Some? ==>
              && r.value.source < |emails|
              && Eligible(catalog, service, Cutoff(searchAfter, now, maxAgeMinutes), emails[r.value.source])
              && r.value.result == MessageResult(catalog, service, emails[r.value.source]).value
              && (forall j :: 0 <= j < |emails| && j != r.value.source
                    && Eligible(catalog, service, Cutoff(searchAfter, now, maxAgeMinutes), emails[j])
                    ==> Newer(emails, r.value.source, j))
  {
    var cutoff := Cutoff(searchAfter, now, maxAgeMinutes);
    var candidates := NewestFirst(emails, cutoff);
    NewestFirstOrder(emails, cutoff);
    var i := 0;
    while i < |candidates|
      invariant 0 <= i <= |candidates|
      invariant forall j :: 0 <= j < i ==> MessageResult(catalog, service, candidates[j].1).None?
    {
      var (index, email) := candidates[i];
      assert candidates[i] in candidates;
      var result := ExtractFromMessage(catalog, service, email);
      if result.Some? {
        FirstYieldIsNewest(catalog, service, emails, cutoff, candidates, i);
        return Some(ExtractedEmail(result.value, index));
      }
      i := i + 1;
    }
    NothingEligible(catalog, service, emails, cutoff, candidates);
    return None;
  }
}
