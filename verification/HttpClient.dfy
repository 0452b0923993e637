/** The retry, redirect and proxy-authentication driver of base/httpclient.cc: `start`,
    `connect` and `onHttpComplete`, against a network that answers as it pleases. */
module HttpClient {

  import opened Wrappers
  import opened HttpText

  datatype Verb = GET | POST | PUT | DELETE | CONNECT | HEAD
  datatype RedirectAction = REDIRECT_DEFAULT | REDIRECT_ALWAYS | REDIRECT_NEVER

  const MAX_REDIRECTS: nat := 5
  const HC_SEE_OTHER: nat := 303
  const HC_PROXY_AUTHENTICATION_REQUIRED: nat := 407
  const HC_INTERNAL_SERVER_ERROR: nat := 500

  /** What the client's owner fixed before starting. */
  datatype Settings = Settings(retries: nat, action: RedirectAction, httpsProxy: bool, hasUsername: bool)

  /** Where the current exchange stands; `Idle` again after completion. */
  datatype Mode = Idle | Connecting | Sending | Receiving

  /** `connects` and `signals` record every connection attempt and every completion
      signal; the rest are the client's own fields. */
  datatype Client = Client(
    mode: Mode, attempt: nat, redirects: nat, context: Option<string>,
    verb: Verb, document: bool, scode: nat,
    connects: nat, signals: seq<HttpError>)

  /** One `onHttpComplete` call: its error, what the response holds by then, and whether
      the request document can be replayed. */
  datatype Event = Event(err: HttpError, scode: nat, location: bool, challenges: seq<string>, rewinds: bool)

  predicate Supported(scheme: string) { EqualIgnoringCase(scheme, "basic") || EqualIgnoringCase(scheme, "digest") }

  datatype HttpAuthResult = HAR_RESPONSE | HAR_IGNORE | HAR_CREDENTIALS

  /** The context rules of `HttpAuthenticate` for the schemes outside Windows. */
  function Authenticate(s: Settings, context: Option<string>, scheme: string): HttpAuthResult
  {
    if context.Some? && context.value != scheme then HAR_IGNORE
    else if !Supported(scheme) then HAR_IGNORE
    else if context.Some? || !s.hasUsername then HAR_CREDENTIALS
    else HAR_RESPONSE
  }

  predicate IsInformational(code: nat) { code / 100 == 1 }

  predicate ShouldRedirect(s: Settings, c: Client, location: bool)
  {
    && s.action != REDIRECT_NEVER && c.scode / 100 == 3 && location && c.redirects < MAX_REDIRECTS
    && (s.action == REDIRECT_ALWAYS || c.scode == HC_SEE_OTHER || c.verb == HEAD || c.verb == GET)
  }

  predicate Retriable(err: HttpError)
  {
    err == HE_DISCONNECTED || err == HE_CONNECT_FAILED || err == HE_SOCKET_ERROR
  }

  function Connect(c: Client): Client { c.(mode := Connecting, connects := c.connects + 1) }

  function Restart(c: Client): Client { Connect(c.(attempt := 0, scode := HC_INTERNAL_SERVER_ERROR)) }

  function Signal(c: Client, err: HttpError): Client { c.(mode := Idle, signals := c.signals + [err]) }

  /** The loop over Proxy-Authenticate headers: the scheme answered, if any, and whether
      an answer was lost because the document could not be replayed. */
  function Challenge(s: Settings, context: Option<string>, replay: bool, lost: bool, schemes: seq<string>)
    : (Option<string>, bool, bool)
    decreases |schemes|
  {
    if schemes == [] then (context, false, lost)
    else
      match Authenticate(s, context, schemes[0])
      case HAR_CREDENTIALS => (context, false, lost)
      case HAR_IGNORE => Challenge(s, context, replay, lost, schemes[1..])
      case HAR_RESPONSE =>
        if replay then (Some(schemes[0]), true, lost)
        else Challenge(s, Some(schemes[0]), replay, true, schemes[1..])
  }

  function AfterResponse(s: Settings, c: Client, e: Event): Client
  {
    if ShouldRedirect(s, c, e.location) then
      var d := if c.scode == HC_SEE_OTHER then c.(verb := GET, document := false) else c;
      if d.document && !e.rewinds then Signal(d, HE_STREAM)
      else Restart(d.(redirects := d.redirects + 1, context := None))
    else if c.scode == HC_PROXY_AUTHENTICATION_REQUIRED && s.httpsProxy then
      var (context, answered, lost) := Challenge(s, c.context, !c.document || e.rewinds, false, e.challenges);
      var d := c.(context := context);
      if answered then Restart(d) else Signal(d, if lost then HE_STREAM else HE_NONE)
    else Signal(c, HE_NONE)
  }

  /** `onHttpComplete` in the mode the exchange is in. */
  function OnComplete(s: Settings, client: Client, e: Event): Client
  {
    if client.mode == Idle then client
    else
      var c := if client.mode == Receiving then client.(scode := e.scode) else client;
      if Retriable(e.err) && c.scode == HC_INTERNAL_SERVER_ERROR && c.attempt < s.retries then
        var d := c.(attempt := c.attempt + 1);
        if d.document && !e.rewinds then Signal(d, HE_STREAM) else Connect(d)
      else if e.err != HE_NONE then Signal(c, e.err)
      else if c.mode == Connecting then c.(mode := Sending)
      else if c.mode == Sending || IsInformational(c.scode) then c.(mode := Receiving)
      else AfterResponse(s, c, e)
  }

  /** `start` on an idle client. */
  function Start(c: Client): Client { Connect(c.(attempt := 0)) }

  function Run(s: Settings, c: Client, events: seq<Event>): Client
  {
    if events == [] then c
    else OnComplete(s, Run(s, c, events[..|events| - 1]), events[|events| - 1])
  }

  // ---------------------------------------------------------------------------
  // The measure
  // ---------------------------------------------------------------------------

  predicate Bounded(s: Settings, c: Client) { c.attempt <= s.retries && c.redirects <= MAX_REDIRECTS }

  /** The triple (redirects left, no context yet, retries left), in lexicographic order. */
  predicate LexLess(s: Settings, d: Client, c: Client)
    requires Bounded(s, c) && Bounded(s, d)
  {
    || d.redirects > c.redirects
    || (d.redirects == c.redirects && d.context.Some? && c.context.None?)
    || (d.redirects == c.redirects && d.context.Some? == c.context.Some? && d.attempt > c.attempt)
  }

  lemma {:induction false} ChallengeContext(s: Settings, context: Option<string>, replay: bool, lost: bool, schemes: seq<string>)
    ensures var (d, answered, _) := Challenge(s, context, replay, lost, schemes);
            (context.Some? ==> d.Some? && !answered) && (answered ==> d.Some?)
    decreases |schemes|
  {
    hide Supported;
    if schemes != [] {
      ChallengeContext(s, context, replay, lost, schemes[1..]);
      ChallengeContext(s, Some(schemes[0]), replay, true, schemes[1..]);
    }
  }

  /** From `c` to `d` in one step: a reconnect strictly decreases the triple; every other
      step keeps it, and either signals once or goes on within the same connection. */
  predicate Advances(s: Settings, c: Client, d: Client)
    requires Bounded(s, c)
  {
    && Bounded(s, d)
    && (if d.connects > c.connects then
          d.connects == c.connects + 1 && d.mode == Connecting && LexLess(s, d, c)
        else
          d.connects == c.connects && d.redirects == c.redirects
          && (d.mode == Idle || (d.context == c.context && d.attempt == c.attempt)))
    && |d.signals| == |c.signals| + if d.mode == Idle then 1 else 0
  }

  lemma ResponseAdvances(s: Settings, c: Client, e: Event)
    requires Bounded(s, c)
    ensures Advances(s, c, AfterResponse(s, c, e))
  {
    hide Challenge;
    ChallengeContext(s, c.context, !c.document || e.rewinds, false, e.challenges);
  }

  lemma StepMeasure(s: Settings, c: Client, e: Event)
    requires Bounded(s, c)
    ensures if c.mode == Idle then OnComplete(s, c, e) == c else Advances(s, c, OnComplete(s, c, e))
  {
    hide AfterResponse;
    ResponseAdvances(s, c.(scode := e.scode), e);
    ResponseAdvances(s, c, e);
  }

  /** The triple as one number: how many reconnects can still follow. */
  function Left(s: Settings, c: Client): (n: nat)
    requires Bounded(s, c)
  {
    ((MAX_REDIRECTS - c.redirects) * 2 + if c.context.None? then 1 else 0) * (s.retries + 1)
    + (s.retries - c.attempt)
  }

  lemma ScaleUp(a: nat, b: nat, k: nat, x: nat, y: nat)
    requires a < b && x < k
    ensures a * k + x < b * k + y
  {
    assert (a + 1) * k <= b * k;
  }

  lemma LexMeansLess(s: Settings, d: Client, c: Client)
    requires Bounded(s, c) && Bounded(s, d) && LexLess(s, d, c)
    ensures Left(s, d) < Left(s, c)
  {
    var a := (MAX_REDIRECTS - d.redirects) * 2 + if d.context.None? then 1 else 0;
    var b := (MAX_REDIRECTS - c.redirects) * 2 + if c.context.None? then 1 else 0;
    if a < b {
      ScaleUp(a, b, s.retries + 1, s.retries - d.attempt, s.retries - c.attempt);
    } else {
      assert a == b;
    }
  }

  /** Steps still to come within the current connection. */
  function Rank(m: Mode): nat
  {
    match m case Idle => 0 case Connecting => 3 case Sending => 2 case Receiving => 1
  }

  predicate Informational(c: Client, e: Event)
  {
    c.mode == Receiving && e.err == HE_NONE && IsInformational(e.scode)
  }

  lemma StepProgress(s: Settings, c: Client, e: Event)
    requires Bounded(s, c) && c.mode != Idle && !Informational(c, e)
    ensures var d := OnComplete(s, c, e);
            Bounded(s, d) && (d.mode == Idle || 3 * Left(s, d) + Rank(d.mode) < 3 * Left(s, c) + Rank(c.mode))
  {
    hide OnComplete;
    StepMeasure(s, c, e);
    var d := OnComplete(s, c, e);
    if d.connects > c.connects {
      LexMeansLess(s, d, c);
    } else if d.mode != Idle {
      StepWithinConnection(s, c, e);
    }
  }

  lemma StepWithinConnection(s: Settings, c: Client, e: Event)
    requires c.mode != Idle && !Informational(c, e)
    ensures var d := OnComplete(s, c, e);
            d.connects == c.connects && d.mode != Idle ==> Rank(d.mode) < Rank(c.mode)
  {
    hide Challenge, Authenticate;
  }

  // ---------------------------------------------------------------------------
  // Whole runs
  // ---------------------------------------------------------------------------

  lemma {:induction false} RunMeasure(s: Settings, c: Client, events: seq<Event>)
    requires Bounded(s, c)
    ensures var d := Run(s, c, events);
            Bounded(s, d) && d.connects + (if d.mode == Idle then 0 else Left(s, d)) <= c.connects + Left(s, c)
            && (c.mode != Idle ==> |d.signals| == |c.signals| + if d.mode == Idle then 1 else 0)
  {
    hide OnComplete;
    if events != [] {
      var b, e := Run(s, c, events[..|events| - 1]), events[|events| - 1];
      RunMeasure(s, c, events[..|events| - 1]);
      StepMeasure(s, b, e);
      var d := OnComplete(s, b, e);
      if d.connects > b.connects {
        LexMeansLess(s, d, b);
      }
    }
  }

  /** One `start` makes at most 6 * 2 * (retries + 1) connection attempts, whatever the
      servers answer, and the run signals completion exactly once when it ends and not
      before. */
  lemma ConnectionBound(s: Settings, idle: Client, events: seq<Event>)
    requires idle.mode == Idle && idle.redirects <= MAX_REDIRECTS
    ensures var d := Run(s, Start(idle), events);
            d.connects - idle.connects <= 6 * 2 * (s.retries + 1)
            && |d.signals| == |idle.signals| + if d.mode == Idle then 1 else 0
  {
    hide OnComplete, Run, Left;
    var c := Start(idle);
    RunMeasure(s, c, events);
    AtMostLeft(s, c);
  }

  lemma AtMostLeft(s: Settings, c: Client)
    requires c.redirects <= MAX_REDIRECTS && c.attempt == 0
    ensures Left(s, c) < 12 * (s.retries + 1)
  {
    var k := s.retries + 1;
    var a := (MAX_REDIRECTS - c.redirects) * 2 + if c.context.None? then 1 else 0;
    Scale(a, k);
  }

  lemma Scale(a: nat, k: nat)
    requires a <= 11
    ensures a * k <= 11 * k
  {
  }

  function CountDecisive(s: Settings, c: Client, events: seq<Event>): nat
  {
    if events == [] then 0
    else
      var front := events[..|events| - 1];
      CountDecisive(s, c, front) + if Informational(Run(s, c, front), events[|events| - 1]) then 0 else 1
  }

  lemma {:induction false} RunProgress(s: Settings, c: Client, events: seq<Event>)
    requires Bounded(s, c)
    ensures var d := Run(s, c, events);
            Bounded(s, d)
            && (d.mode == Idle || 3 * Left(s, d) + Rank(d.mode) + CountDecisive(s, c, events) <= 3 * Left(s, c) + Rank(c.mode))
  {
    hide OnComplete, Left;
    if events != [] {
      var front, e := events[..|events| - 1], events[|events| - 1];
      var b := Run(s, c, front);
      RunProgress(s, c, front);
      if b.mode == Idle {
        StepMeasure(s, b, e);
      } else if Informational(b, e) {
        InformationalStays(s, b, e);
      } else {
        StepProgress(s, b, e);
      }
    }
  }

  lemma InformationalStays(s: Settings, c: Client, e: Event)
    requires Bounded(s, c) && Informational(c, e)
    ensures var d := OnComplete(s, c, e); Bounded(s, d) && d.mode == c.mode && Left(s, d) == Left(s, c)
  {
  }

  /** And the run does end: after 36 * (retries + 1) completions that are not mere
      informational responses the client is idle again. */
  lemma RunEnds(s: Settings, idle: Client, events: seq<Event>)
    requires idle.mode == Idle && idle.redirects <= MAX_REDIRECTS
    requires CountDecisive(s, Start(idle), events) >= 36 * (s.retries + 1)
    ensures Run(s, Start(idle), events).mode == Idle
  {
    hide OnComplete, Run, Left;
    var c := Start(idle);
    RunProgress(s, c, events);
    AtMostLeft(s, c);
  }

  // ---------------------------------------------------------------------------
  // What becomes of the request
  // ---------------------------------------------------------------------------

  /** One step: a document is sent again only after it was rewound; a redirect that was
      not forced by the owner repeats a GET or HEAD, or turns the request into a GET
      without document; and the request changes in no other way. */
  predicate Careful(s: Settings, c: Client, e: Event, d: Client)
  {
    && (d.connects > c.connects && d.document ==> e.rewinds)
    && (d.redirects > c.redirects ==>
          s.action != REDIRECT_NEVER && (s.action == REDIRECT_ALWAYS || d.verb == GET || d.verb == HEAD))
    && ((d.verb == c.verb && d.document == c.document) || (d.verb == GET && !d.document))
    && (d.redirects == c.redirects && d.mode != Idle ==> d.verb == c.verb && d.document == c.document)
  }

  lemma {:induction false} ChallengeReplays(s: Settings, context: Option<string>, replay: bool, lost: bool, schemes: seq<string>)
    ensures var (_, answered, l) := Challenge(s, context, replay, lost, schemes);
      (answered ==> replay) && (l ==> lost || !replay)
    decreases |schemes|
  {
    hide Supported;
    if schemes != [] {
      ChallengeReplays(s, context, replay, lost, schemes[1..]);
      ChallengeReplays(s, Some(schemes[0]), replay, true, schemes[1..]);
    }
  }

  lemma StepCareful(s: Settings, c: Client, e: Event)
    ensures Careful(s, c, e, OnComplete(s, c, e))
  {
    hide Challenge;
    ChallengeReplays(s, c.context, !c.document || e.rewinds, false, e.challenges);
  }

  /** A whole run: unless the owner asked for it, no request but GET and HEAD is repeated
      at another location, and what is sent is the original request or a GET. */
  lemma {:induction false} RunCareful(s: Settings, c: Client, events: seq<Event>)
    ensures var d := Run(s, c, events);
      && c.redirects <= d.redirects && c.connects <= d.connects
      && (s.action == REDIRECT_NEVER ==> d.redirects == c.redirects)
      && (s.action == REDIRECT_DEFAULT && d.redirects > c.redirects ==> d.verb == GET || d.verb == HEAD)
      && ((d.verb == c.verb && d.document == c.document) || (d.verb == GET && !d.document))
      && ((forall e <- events :: !e.rewinds) && d.document ==> d.connects == c.connects)
  {
    hide OnComplete;
    if events != [] {
      var before, e := events[..|events| - 1], events[|events| - 1];
      RunCareful(s, c, before);
      var b := Run(s, c, before);
      StepCareful(s, b, e);
      StepMonotone(s, b, e);
      assert e in events && forall x <- before :: x in events;
    }
  }

  lemma StepMonotone(s: Settings, c: Client, e: Event)
    ensures var d := OnComplete(s, c, e);
      c.redirects <= d.redirects <= c.redirects + 1 && c.connects <= d.connects
  {
    hide Challenge;
  }

  // ---------------------------------------------------------------------------
  // When the client goes on, and what it reports
  // ---------------------------------------------------------------------------

  /** The response code as it stands when an exchange completes. */
  function Code(c: Client, e: Event): nat { if c.mode == Receiving then e.scode else c.scode }

  /** The connection failed, nothing meaningful had come, and attempts are left. */
  predicate RetryDue(s: Settings, c: Client, e: Event)
  {
    && (e.err == HE_DISCONNECTED || e.err == HE_CONNECT_FAILED || e.err == HE_SOCKET_ERROR)
    && Code(c, e) == 500 && c.attempt < s.retries
  }

  /** A redirection to a named place that the owner's policy lets it follow. */
  predicate RedirectDue(s: Settings, c: Client, e: Event)
  {
    && c.mode == Receiving && e.err == HE_NONE && 300 <= e.scode < 400 && e.location && c.redirects < 5
    && match s.action
       case REDIRECT_NEVER => false
       case REDIRECT_ALWAYS => true
       case REDIRECT_DEFAULT => e.scode == 303 || c.verb == GET || c.verb == HEAD
  }

  predicate Known(scheme: string) { LowerAll(scheme) == "basic" || LowerAll(scheme) == "digest" }

  /** The place of the first challenge with a known scheme. */
  function FirstKnown(schemes: seq<string>): (k: nat)
    ensures k <= |schemes| && (k < |schemes| ==> Known(schemes[k]))
    ensures forall i :: 0 <= i < k ==> !Known(schemes[i])
  {
    if schemes == [] || Known(schemes[0]) then 0 else 1 + FirstKnown(schemes[1..])
  }

  /** The proxy asks for credentials that are there and were not tried yet. */
  predicate ChallengeDue(s: Settings, c: Client, e: Event)
  {
    && c.mode == Receiving && e.err == HE_NONE && e.scode == 407 && s.httpsProxy
    && c.context == None && s.hasUsername && FirstKnown(e.challenges) < |e.challenges|
  }

  predicate Due(s: Settings, c: Client, e: Event) { RetryDue(s, c, e) || RedirectDue(s, c, e) || ChallengeDue(s, c, e) }

  /** The request has a document, which must be sent again, and cannot be. */
  predicate ReplayLost(s: Settings, c: Client, e: Event)
  {
    c.document && !e.rewinds && !(RedirectDue(s, c, e) && e.scode == 303)
  }

  /** The client that connects again. */
  function Again(s: Settings, c: Client, e: Event): Client
  {
    var d := c.(mode := Connecting, connects := c.connects + 1);
    if RetryDue(s, c, e) then d.(attempt := c.attempt + 1, scode := 500)
    else if RedirectDue(s, c, e) then
      d.(attempt := 0, scode := 500, redirects := c.redirects + 1, context := None,
         verb := if e.scode == 303 then GET else c.verb, document := c.document && e.scode != 303)
    else
      d.(attempt := 0, scode := 500,
         context := if FirstKnown(e.challenges) < |e.challenges| then Some(e.challenges[FirstKnown(e.challenges)]) else None)
  }

  /** What becomes of a client under way: it connects again exactly when something is due
      and nothing lost; it ends exactly when a replay was lost, on an error, or with a
      final response, and reports the lost replay, else the error of the event; otherwise
      the exchange goes on, request, response, informational responses skipped. */
  predicate Outcome(s: Settings, c: Client, e: Event, d: Client)
  {
    if Due(s, c, e) && !ReplayLost(s, c, e) then d == Again(s, c, e)
    else if Due(s, c, e) then
      d.mode == Idle && d.connects == c.connects && d.signals == c.signals + [HE_STREAM]
    else if e.err != HE_NONE || (c.mode == Receiving && !(100 <= e.scode < 200)) then
      d.mode == Idle && d.connects == c.connects && d.signals == c.signals + [e.err]
    else
      d == c.(mode := if c.mode == Connecting then Sending else Receiving, scode := Code(c, e))
  }

  lemma KnownIs(scheme: string)
    ensures Known(scheme) <==> Supported(scheme)
  {
    CaseIs(scheme, "basic");
    CaseIs(scheme, "digest");
  }

  lemma CaseIs(a: string, b: string)
    requires LowerAll(b) == b
    ensures LowerAll(a) == b <==> EqualIgnoringCase(a, b)
  {
    assert forall i :: 0 <= i < |b| ==> Lower(b[i]) == b[i];
    if EqualIgnoringCase(a, b) {
      assert LowerAll(a) == b;
    }
  }

  /** The loop over the challenges answers the first known one, if it can. */
  lemma {:induction false} ChallengeMeans(s: Settings, context: Option<string>, replay: bool, lost: bool, schemes: seq<string>)
    ensures var k := FirstKnown(schemes);
      Challenge(s, context, replay, lost, schemes)
      == if context != None || !s.hasUsername || k == |schemes| then (context, false, lost)
         else (Some(schemes[k]), replay, lost || !replay)
    decreases |schemes|
  {
    hide Supported, Known;
    if schemes != [] {
      KnownIs(schemes[0]);
      ChallengeMeans(s, context, replay, lost, schemes[1..]);
      ChallengeMeans(s, Some(schemes[0]), replay, true, schemes[1..]);
    }
  }

  lemma ResponseMeans(s: Settings, c: Client, e: Event)
    requires c.mode == Receiving && e.err == HE_NONE && !IsInformational(e.scode)
    ensures Outcome(s, c, e, AfterResponse(s, c.(scode := e.scode), e))
  {
    hide Challenge, Known, FirstKnown;
    ChallengeMeans(s, c.context, !c.document || e.rewinds, false, e.challenges);
    FirstKnownFits(e.challenges);
  }

  lemma FirstKnownFits(schemes: seq<string>)
    ensures FirstKnown(schemes) <= |schemes|
  {
  }

  lemma CompleteMeans(s: Settings, c: Client, e: Event)
    requires c.mode != Idle
    ensures Outcome(s, c, e, OnComplete(s, c, e))
  {
    hide AfterResponse, Known, FirstKnown;
    if c.mode == Receiving && e.err == HE_NONE && !IsInformational(e.scode) {
      ResponseMeans(s, c, e);
    }
  }

  /** Every completion of every run. */
  lemma RunMeans(s: Settings, start: Client, events: seq<Event>, e: Event)
    ensures var c, d := Run(s, start, events), Run(s, start, events + [e]);
      if c.mode == Idle then d == c else Outcome(s, c, e, d)
  {
    hide Outcome, OnComplete;
    assert (events + [e])[..|events|] == events;
    var c := Run(s, start, events);
    if c.mode == Idle {
      IdleStays(s, c, e);
    } else {
      CompleteMeans(s, c, e);
    }
  }

  lemma IdleStays(s: Settings, c: Client, e: Event)
    requires c.mode == Idle
    ensures OnComplete(s, c, e) == c
  {
  }

  /** A run that has ended did so at one event, and what it has reported is that event's
      error, none for a final response, unless a document had to be sent again in vain. */
  lemma {:induction false} EndMeans(s: Settings, idle: Client, events: seq<Event>) returns (n: nat)
    requires idle.mode == Idle && Run(s, Start(idle), events).mode == Idle
    ensures n < |events|
    ensures var c, e := Run(s, Start(idle), events[..n]), events[n];
      && c.mode != Idle
      && (!Due(s, c, e) ==> e.err != HE_NONE || (c.mode == Receiving && !(100 <= e.scode < 200)))
      && (Due(s, c, e) ==> ReplayLost(s, c, e))
      && Run(s, Start(idle), events).signals == idle.signals + [if Due(s, c, e) then HE_STREAM else e.err]
  {
    hide OnComplete, Due, ReplayLost, Again;
    assert events != [];
    var before, e := events[..|events| - 1], events[|events| - 1];
    assert before + [e] == events;
    RunMeans(s, Start(idle), before, e);
    if Run(s, Start(idle), before).mode == Idle {
      n := EndMeans(s, idle, before);
      assert before[..n] == events[..n];
    } else {
      n := |before|;
      assert events[..n] == before;
      NotYetSignalled(s, idle, before);
      AgainConnects(s, Run(s, Start(idle), before), e);
    }
  }

  lemma AgainConnects(s: Settings, c: Client, e: Event)
    ensures Again(s, c, e).mode == Connecting
  {
  }

  lemma {:induction false} NotYetSignalled(s: Settings, idle: Client, events: seq<Event>)
    requires idle.mode == Idle && Run(s, Start(idle), events).mode != Idle
    ensures Run(s, Start(idle), events).signals == idle.signals
  {
    hide OnComplete, Due, ReplayLost;
    if events != [] {
      var before, e := events[..|events| - 1], events[|events| - 1];
      assert before + [e] == events;
      RunMeans(s, Start(idle), before, e);
      NotYetSignalled(s, idle, before);
      AgainQuiet(s, Run(s, Start(idle), before), e);
    }
  }

  lemma AgainQuiet(s: Settings, c: Client, e: Event)
    ensures Again(s, c, e).signals == c.signals
  {
  }

  // ---------------------------------------------------------------------------
  // The client object
  // ---------------------------------------------------------------------------

  class HttpClient {
    const settings: Settings
    var mode: Mode
    var attempt: nat
    var redirects: nat
    var context: Option<string>
    var verb: Verb
    var document: bool
    var scode: nat
    var connects: nat
    var signals: seq<HttpError>

    function View(): Client
      reads this
    {
      Client(mode, attempt, redirects, context, verb, document, scode, connects, signals)
    }

    constructor (settings: Settings, verb: Verb, document: bool)
      ensures this.settings == settings
      ensures View() == Client(Idle, 0, 0, None, verb, document, HC_INTERNAL_SERVER_ERROR, 0, [])
    {
      this.settings, this.verb, this.document := settings, verb, document;
      mode, attempt, redirects, context := Idle, 0, 0, None;
      scode, connects, signals := HC_INTERNAL_SERVER_ERROR, 0, [];
    }

    method ConnectStream()
      modifies this
      ensures View() == Connect(old(View()))
    {
      mode := Connecting;
      connects := connects + 1;
    }

    method StartRequest()
      modifies this
      ensures View() == Start(old(View()))
    {
      attempt := 0;
      ConnectStream();
    }

    method Finish(err: HttpError)
      modifies this
      ensures View() == Signal(old(View()), err)
    {
      mode := Idle;
      signals := signals + [err];
    }

    /** The loop over the Proxy-Authenticate headers. */
    method AnswerChallenge(e: Event) returns (answered: bool, err: HttpError)
      modifies this`context
      ensures Challenge(settings, old(context), !document || e.rewinds, false, e.challenges)
              == (context, answered, err == HE_STREAM)
      ensures err == HE_NONE || err == HE_STREAM
    {
      hide Authenticate;
      err := HE_NONE;
      var it := 0;
      assert e.challenges[0..] == e.challenges;
      while it < |e.challenges|
        invariant 0 <= it <= |e.challenges| && (err == HE_NONE || err == HE_STREAM)
        invariant Challenge(settings, old(context), !document || e.rewinds, false, e.challenges)
                  == Challenge(settings, context, !document || e.rewinds, err == HE_STREAM, e.challenges[it..])
      {
        var scheme := e.challenges[it];
        assert e.challenges[it..][1..] == e.challenges[it + 1..];
        match Authenticate(settings, context, scheme) {
          case HAR_CREDENTIALS => return false, err;
          case HAR_IGNORE =>
          case HAR_RESPONSE =>
            context := Some(scheme);
            if document && !e.rewinds {
              err := HE_STREAM;
            } else {
              return true, err;
            }
        }
        it := it + 1;
      }
      return false, err;
    }

    method HandleResponse(e: Event)
      modifies this
      ensures View() == AfterResponse(settings, old(View()), e)
    {
      hide Challenge;
      if ShouldRedirect(settings, View(), e.location) {
        var err := HE_NONE;
        if scode == HC_SEE_OTHER {
          verb, document := GET, false;
        } else if document && !e.rewinds {
          err := HE_STREAM;
        }
        if err == HE_NONE {
          redirects, context, scode := redirects + 1, None, HC_INTERNAL_SERVER_ERROR;
          StartRequest();
        } else {
          Finish(err);
        }
      } else if scode == HC_PROXY_AUTHENTICATION_REQUIRED && settings.httpsProxy {
        var answered, err := AnswerChallenge(e);
        if answered {
          scode := HC_INTERNAL_SERVER_ERROR;
          StartRequest();
        } else {
          Finish(err);
        }
      } else {
        Finish(HE_NONE);
      }
    }

    /** `onHttpComplete`, called while an exchange is under way. */
    method OnHttpComplete(e: Event)
      requires mode != Idle
      modifies this
      ensures View() == OnComplete(settings, old(View()), e)
    {
      hide AfterResponse;
      if mode == Receiving { scode := e.scode; }
      if Retriable(e.err) && scode == HC_INTERNAL_SERVER_ERROR && attempt < settings.retries {
        attempt := attempt + 1;
        if document && !e.rewinds { Finish(HE_STREAM); } else { ConnectStream(); }
      } else if e.err != HE_NONE {
        Finish(e.err);
      } else if mode == Connecting {
        mode := Sending;
      } else if mode == Sending || IsInformational(scode) {
        mode := Receiving;
      } else {
        HandleResponse(e);
      }
    }
  }
}
