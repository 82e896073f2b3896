/**
  The attempt cap of `verify_otp` (backend/app/routers/auth.py) over the limiter.

  A login challenge is a stateless token that lives `minutes`; each try is counted against the token's own
  id in a limiter window of the same length. The wall clock that dates the token and the monotonic clock of
  the limiter are taken to run at the same rate, so both are told on one time line.
 */
module Otp {
  import opened Numerals
  import opened RateLimit

  datatype Settings = Settings(attemptLimit: int, minutes: int, ipLimit: int, ipWindow: real)

  /** A login challenge: its id and the instant it was issued. */
  datatype Challenge = Challenge(jti: string, issued: real)

  function Window(settings: Settings): real {
    60.0 * settings.minutes as real
  }

  /** The token's expiry is kept in whole seconds. */
  function Expiry(challenge: Challenge, settings: Settings): real {
    (challenge.issued + Window(settings)).Floor as real
  }

  /** What the lookup of the token's subject finds. */
  datatype Account = Missing | Inactive | Active

  /** One request: the token is decoded first, the counters are touched later. `codeOk` is what the comparison says. */
  datatype Try = Try(
    challenge: Challenge, ip: string, decodedAt: real, ipAt: real, countedAt: real, codeOk: bool, account: Account)

  datatype Answer =
    | ExpiredToken
    | TooManyFromIp(retryAfter: int)
    | TooManyCodes(retryAfter: int)
    | WrongCode
    | NoSuchUser
    | SessionIssued

  /** The code was compared in this request. */
  predicate Compared(a: Answer) {
    a.WrongCode? || a.NoSuchUser? || a.SessionIssued?
  }

  const CHALLENGE_PREFIX := "otp-challenge:"
  const IP_PREFIX := "otp-ip:"

  function ChallengeKey(jti: string): string {
    CHALLENGE_PREFIX + jti
  }

  function IpKey(ip: string): string {
    IP_PREFIX + ip
  }

  /** A try up to its answer. The counter a session releases is released afterwards, in a step of its own. */
  function Verified(events: Events, t: Try, settings: Settings): (Events, Answer) {
    if Expiry(t.challenge, settings) <= t.decodedAt then (events, ExpiredToken)
    else
      var (afterIp, first) := Attempted(events, IpKey(t.ip), settings.ipLimit, settings.ipWindow, t.ipAt);
      match first
      case Refused(retry) => (afterIp, TooManyFromIp(retry))
      case Accepted =>
        var key := ChallengeKey(t.challenge.jti);
        var (after, second) := Attempted(afterIp, key, settings.attemptLimit, Window(settings), t.countedAt);
        match second
        case Refused(retry) => (after, TooManyCodes(retry))
        case Accepted =>
          if !t.codeOk then (after, WrongCode)
          else if !t.account.Active? then (after, NoSuchUser)
          else (after, SessionIssued)
  }

  /** The token has not run out when it is decoded: its life is so many minutes, cut to whole seconds. */
  ghost predicate Lives(t: Try, settings: Settings) {
    t.decodedAt < (t.challenge.issued + 60.0 * settings.minutes as real).Floor as real
  }

  /** What the limiter says to the try under its address, and under its challenge. */
  ghost function ForAddress(events: Events, t: Try, settings: Settings): Outcome {
    Attempted(events, "otp-ip:" + t.ip, settings.ipLimit, settings.ipWindow, t.ipAt).1
  }

  ghost function ForChallenge(events: Events, t: Try, settings: Settings): Outcome {
    Attempted(
      events, "otp-challenge:" + t.challenge.jti, settings.attemptLimit, 60.0 * settings.minutes as real,
      t.countedAt).1
  }

  /** The exact cause of each answer. */
  ghost predicate HasItsCause(answer: Answer, events: Events, t: Try, settings: Settings) {
    var byAddress, byChallenge := ForAddress(events, t, settings), ForChallenge(events, t, settings);
    var counted := Lives(t, settings) && byAddress.Accepted? && byChallenge.Accepted?;
    && (answer.ExpiredToken? <==> !Lives(t, settings))
    && (answer.TooManyFromIp? <==> Lives(t, settings) && byAddress.Refused?)
    && (answer.TooManyFromIp? ==> answer.retryAfter == byAddress.retryAfter)
    && (answer.TooManyCodes? <==> Lives(t, settings) && byAddress.Accepted? && byChallenge.Refused?)
    && (answer.TooManyCodes? ==> answer.retryAfter == byChallenge.retryAfter)
    && (answer.WrongCode? <==> counted && !t.codeOk)
    && (answer.NoSuchUser? <==> counted && t.codeOk && (t.account.Missing? || t.account.Inactive?))
    && (answer.SessionIssued? <==> counted && t.codeOk && t.account.Active?)
  }

  /** Which deques the try leaves: that of its address once the token has been found alive, that of its challenge
      once the address is let through, dropped again for a session; and no other. */
  ghost predicate CountedWhere(after: Events, answer: Answer, events: Events, t: Try, settings: Settings) {
    var address, challenge := "otp-ip:" + t.ip, "otp-challenge:" + t.challenge.jti;
    var window := 60.0 * settings.minutes as real;
    && (forall key :: key != address && key != challenge ==> Deque(after, key) == Deque(events, key))
    && Deque(after, address)
       == (if answer.ExpiredToken? then Deque(events, address)
           else Deque(Attempted(events, address, settings.ipLimit, settings.ipWindow, t.ipAt).0, address))
    && Deque(after, challenge)
       == (if answer.SessionIssued? then []
           else if answer.ExpiredToken? || answer.TooManyFromIp? then Deque(events, challenge)
           else Deque(Attempted(events, challenge, settings.attemptLimit, window, t.countedAt).0, challenge))
  }

  /** The answer to a challenge's attempt depends on its own deque. */
  lemma SameDequeSameOutcome(a: Events, b: Events, key: string, limit: int, window: real, now: real)
    requires Deque(a, key) == Deque(b, key)
    ensures Attempted(a, key, limit, window, now).1 == Attempted(b, key, limit, window, now).1
    ensures Deque(Attempted(a, key, limit, window, now).0, key) == Deque(Attempted(b, key, limit, window, now).0, key)
  {
  }

  lemma AddressFirst(events: Events, t: Try, settings: Settings)
    ensures var key := ChallengeKey(t.challenge.jti);
            var afterIp := Attempted(events, IpKey(t.ip), settings.ipLimit, settings.ipWindow, t.ipAt).0;
            && key == "otp-challenge:" + t.challenge.jti && IpKey(t.ip) == "otp-ip:" + t.ip && key != IpKey(t.ip)
            && Deque(afterIp, key) == Deque(events, key)
  {
    KeysDiffer(t.challenge.jti, t.ip, t.challenge.jti);
    OtherKeyUntouched(
      events, IpKey(t.ip), settings.ipLimit, settings.ipWindow, t.ipAt, ChallengeKey(t.challenge.jti));
  }

  /** A session is issued exactly to a living token within both limits with the right code and an active account;
      and each refusal has exactly its own reason. */
  lemma EveryAnswerHasItsCause(events: Events, t: Try, settings: Settings)
    ensures HasItsCause(Verified(events, t, settings).1, events, t, settings)
  {
    var afterIp := Attempted(events, IpKey(t.ip), settings.ipLimit, settings.ipWindow, t.ipAt).0;
    AddressFirst(events, t, settings);
    SameDequeSameOutcome(
      afterIp, events, ChallengeKey(t.challenge.jti), settings.attemptLimit, Window(settings), t.countedAt);
  }

  /** No window but the address's and the challenge's is touched. */
  lemma OthersStay(events: Events, t: Try, settings: Settings, other: string)
    requires other != IpKey(t.ip) && other != ChallengeKey(t.challenge.jti)
    ensures Deque(Verified(events, t, settings).0, other) == Deque(events, other)
  {
    var afterIp := Attempted(events, IpKey(t.ip), settings.ipLimit, settings.ipWindow, t.ipAt).0;
    OtherKeyUntouched(events, IpKey(t.ip), settings.ipLimit, settings.ipWindow, t.ipAt, other);
    OtherKeyUntouched(
      afterIp, ChallengeKey(t.challenge.jti), settings.attemptLimit, Window(settings), t.countedAt, other);
  }

  lemma EveryTryIsCountedWhere(events: Events, t: Try, settings: Settings)
    ensures var (after, answer) := Verified(events, t, settings); var key := ChallengeKey(t.challenge.jti);
            CountedWhere(if answer.SessionIssued? then after - {key} else after, answer, events, t, settings)
  {
    var key := ChallengeKey(t.challenge.jti);
    var afterIp := Attempted(events, IpKey(t.ip), settings.ipLimit, settings.ipWindow, t.ipAt).0;
    AddressFirst(events, t, settings);
    SameDequeSameOutcome(afterIp, events, key, settings.attemptLimit, Window(settings), t.countedAt);
    forall other | other != IpKey(t.ip) && other != key
      ensures Deque(Verified(events, t, settings).0, other) == Deque(events, other)
    {
      OthersStay(events, t, settings, other);
    }
    OtherKeyUntouched(afterIp, key, settings.attemptLimit, Window(settings), t.countedAt, IpKey(t.ip));
  }

  /** The handler, step by step over the shared limiter. */
  method VerifyOtp(limiter: RateLimiter, t: Try, settings: Settings) returns (answer: Answer)
    modifies limiter
    ensures answer == Verified(old(limiter.events), t, settings).1
    ensures var afterTry := Verified(old(limiter.events), t, settings).0;
            limiter.events == if answer.SessionIssued? then afterTry - {ChallengeKey(t.challenge.jti)} else afterTry
    ensures HasItsCause(answer, old(limiter.events), t, settings)
    ensures CountedWhere(limiter.events, answer, old(limiter.events), t, settings)
  {
    EveryAnswerHasItsCause(limiter.events, t, settings);
    EveryTryIsCountedWhere(limiter.events, t, settings);
    if Expiry(t.challenge, settings) <= t.decodedAt {
      return ExpiredToken;
    }
    var first := limiter.Enforce(IpKey(t.ip), settings.ipLimit, settings.ipWindow, t.ipAt);
    if first.Refused? {
      return TooManyFromIp(first.retryAfter);
    }
    var key := ChallengeKey(t.challenge.jti);
    var second := limiter.Enforce(key, settings.attemptLimit, Window(settings), t.countedAt);
    if second.Refused? {
      return TooManyCodes(second.retryAfter);
    }
    if !t.codeOk {
      return WrongCode;
    }
    if !t.account.Active? {
      return NoSuchUser;
    }
    limiter.Clear(key);
    return SessionIssued;
  }

  // ---------------------------------------------------------------- runs of the process

  /** Tries of any challenge, attempts the rest of the process makes on other keys, and clears: the one that
      follows an issued session comes whenever its thread gets to it. */
  datatype Event = Tried(t: Try) | Elsewhere(key: string, limit: int, window: real, now: real) | Released(key: string)

  function StepEvent(events: Events, e: Event, settings: Settings): Events {
    match e
    case Tried(t) => Verified(events, t, settings).0
    case Elsewhere(key, limit, window, now) => Attempted(events, key, limit, window, now).0
    case Released(key) => events - {key}
  }

  function RunEvents(run: seq<Event>, settings: Settings): Events {
    if run == [] then map[] else StepEvent(RunEvents(run[..|run| - 1], settings), run[|run| - 1], settings)
  }

  /** What the last event of a run answers, when it is a try. */
  function LastAnswer(run: seq<Event>, settings: Settings): Answer
    requires run != [] && run[|run| - 1].Tried?
  {
    Verified(RunEvents(run[..|run| - 1], settings), run[|run| - 1].t, settings).1
  }

  /** Code comparisons made for a challenge since its counter was last released, the winning one and any that
      slipped in before the release included. */
  function Comparisons(run: seq<Event>, settings: Settings, jti: string): nat {
    if run == [] then 0
    else
      var before := Comparisons(run[..|run| - 1], settings, jti);
      match run[|run| - 1]
      case Tried(t) => if t.challenge.jti == jti && Compared(LastAnswer(run, settings)) then before + 1 else before
      case Elsewhere(_, _, _, _) => before
      case Released(key) => if key == ChallengeKey(jti) then 0 else before
  }

  /** The rest of the process attempts nothing on this challenge's key, and every try of it reaches the counter no later
      than `lag` after its token was decoded. */
  ghost predicate Prompt(run: seq<Event>, settings: Settings, challenge: Challenge, lag: real) {
    forall i :: 0 <= i < |run| ==> EventFits(run[i], challenge, lag)
  }

  ghost predicate EventFits(e: Event, challenge: Challenge, lag: real) {
    match e
    case Tried(t) =>
      t.challenge.jti == challenge.jti ==>
        t.challenge == challenge && challenge.issued <= t.decodedAt <= t.countedAt <= t.decodedAt + lag
    case Elsewhere(key, _, _, _) => key != ChallengeKey(challenge.jti)
    case Released(_) => true
  }

  /** What the whole-second expiry cuts off the token's life: the limiter's window outlives it by that much. */
  function Slack(challenge: Challenge, settings: Settings): (slack: real)
    ensures 0.0 <= slack < 1.0
  {
    challenge.issued + Window(settings) - Expiry(challenge, settings)
  }

  // ---------------------------------------------------------------- the proof

  lemma KeysDiffer(jti: string, ip: string, other: string)
    ensures ChallengeKey(jti) != IpKey(ip)
    ensures ChallengeKey(jti) == ChallengeKey(other) ==> jti == other
  {
    assert ChallengeKey(jti)[4] == 'c' && IpKey(ip)[4] == 'i';
    assert jti == ChallengeKey(jti)[|CHALLENGE_PREFIX|..];
    assert other == ChallengeKey(other)[|CHALLENGE_PREFIX|..];
  }

  lemma OtherKeyUntouched(events: Events, key: string, limit: int, window: real, now: real, other: string)
    requires key != other
    ensures Deque(Attempted(events, key, limit, window, now).0, other) == Deque(events, other)
  {
  }

  /** While the token lives, its deque holds one instant per comparison and nothing is ever pruned from it. */
  ghost predicate Tight(deque: seq<real>, comparisons: nat, limit: int, issued: real) {
    |deque| == comparisons <= limit && forall i :: 0 <= i < |deque| ==> issued <= deque[i]
  }

  lemma TryKeepsTight(
    events: Events, t: Try, settings: Settings, challenge: Challenge, lag: real, comparisons: nat)
    requires 0 < settings.attemptLimit && EventFits(Tried(t), challenge, lag)
    requires t.challenge.jti == challenge.jti && lag <= Slack(challenge, settings)
    requires Tight(Deque(events, ChallengeKey(challenge.jti)), comparisons, settings.attemptLimit, challenge.issued)
    ensures var (after, answer) := Verified(events, t, settings);
            var now := if Compared(answer) then comparisons + 1 else comparisons;
            Tight(Deque(after, ChallengeKey(challenge.jti)), now, settings.attemptLimit, challenge.issued)
  {
    if Expiry(challenge, settings) <= t.decodedAt {
      return;
    }
    var key := ChallengeKey(challenge.jti);
    var deque := Deque(events, key);
    KeysDiffer(challenge.jti, t.ip, challenge.jti);
    OtherKeyUntouched(events, IpKey(t.ip), settings.ipLimit, settings.ipWindow, t.ipAt, key);
    assert t.countedAt - Window(settings) < challenge.issued;
    KeepsAll(deque, t.countedAt - Window(settings));
    var afterIp := Attempted(events, IpKey(t.ip), settings.ipLimit, settings.ipWindow, t.ipAt).0;
    assert Deque(afterIp, key) == deque;
    var after := Attempted(afterIp, key, settings.attemptLimit, Window(settings), t.countedAt).0;
    assert Deque(after, key) == if settings.attemptLimit <= |deque| then deque else deque + [t.countedAt];
  }

  lemma StrangerKeepsDeque(events: Events, t: Try, settings: Settings, jti: string)
    requires t.challenge.jti != jti
    ensures Deque(Verified(events, t, settings).0, ChallengeKey(jti)) == Deque(events, ChallengeKey(jti))
  {
    var key := ChallengeKey(jti);
    KeysDiffer(jti, t.ip, t.challenge.jti);
    OtherKeyUntouched(events, IpKey(t.ip), settings.ipLimit, settings.ipWindow, t.ipAt, key);
    var afterIp := Attempted(events, IpKey(t.ip), settings.ipLimit, settings.ipWindow, t.ipAt).0;
    OtherKeyUntouched(
      afterIp, ChallengeKey(t.challenge.jti), settings.attemptLimit, Window(settings), t.countedAt, key);
  }

  lemma {:induction false} RunTight(run: seq<Event>, settings: Settings, challenge: Challenge, lag: real)
    requires 0 < settings.attemptLimit && Prompt(run, settings, challenge, lag)
    requires lag <= Slack(challenge, settings)
    ensures Tight(Deque(RunEvents(run, settings), ChallengeKey(challenge.jti)),
                  Comparisons(run, settings, challenge.jti), settings.attemptLimit, challenge.issued)
    decreases |run|
  {
    if run != [] {
      var n := |run| - 1;
      var events := RunEvents(run[..n], settings);
      assert Prompt(run[..n], settings, challenge, lag);
      RunTight(run[..n], settings, challenge, lag);
      assert EventFits(run[n], challenge, lag);
      match run[n]
      case Tried(t) =>
        if t.challenge.jti == challenge.jti {
          TryKeepsTight(events, t, settings, challenge, lag, Comparisons(run[..n], settings, challenge.jti));
        } else {
          StrangerKeepsDeque(events, t, settings, challenge.jti);
        }
      case Elsewhere(key, limit, window, now) =>
        OtherKeyUntouched(events, key, limit, window, now, ChallengeKey(challenge.jti));
      case Released(key) =>
    }
  }

  /** Over a whole run of the process, at most `attemptLimit` codes are compared for one challenge before its
      counter is released, which only an issued session does, whatever other tries, addresses and keys do in
      between: the window is as long as the token lives, so no counted try is forgotten in time. */
  lemma AtMostLimitComparisons(run: seq<Event>, settings: Settings, challenge: Challenge, lag: real)
    requires 0 < settings.attemptLimit && Prompt(run, settings, challenge, lag) && lag <= Slack(challenge, settings)
    ensures Comparisons(run, settings, challenge.jti) <= settings.attemptLimit
  {
    RunTight(run, settings, challenge, lag);
  }

  // ---------------------------------------------------------------- how prompt is prompt enough

  /** The cap holds over every run whose tries are counted within `lag` of being decoded. */
  ghost predicate CapHolds(settings: Settings, challenge: Challenge, lag: real) {
    forall run: seq<Event> :: Prompt(run, settings, challenge, lag) ==>
      Comparisons(run, settings, challenge.jti) <= settings.attemptLimit
  }

  /** A wrong code from an address of its own. */
  function WrongTry(challenge: Challenge, k: nat, decodedAt: real, countedAt: real): Try {
    Try(challenge, Decimal(k), decodedAt, decodedAt, countedAt, false, Active)
  }

  /** `k` wrong codes, all tried the instant the challenge was issued. */
  function Burst(challenge: Challenge, k: nat): (run: seq<Event>)
    ensures |run| == k
    ensures forall i :: 0 <= i < k ==> run[i] == Tried(WrongTry(challenge, i, challenge.issued, challenge.issued))
  {
    seq(k, i requires 0 <= i < k => Tried(WrongTry(challenge, i, challenge.issued, challenge.issued)))
  }

  ghost predicate AllAt(times: seq<real>, instant: real) {
    forall i :: 0 <= i < |times| ==> times[i] == instant
  }

  /** A wrong code from an address not seen yet is compared if the challenge's own window has room. */
  lemma WrongTryIsCompared(events: Events, t: Try, settings: Settings)
    requires t.decodedAt < Expiry(t.challenge, settings) && !t.codeOk && IpKey(t.ip) !in events
    requires 0 < settings.attemptLimit
    requires |Prune(Deque(events, ChallengeKey(t.challenge.jti)), t.countedAt - Window(settings))|
             < settings.attemptLimit
    ensures var (after, answer) := Verified(events, t, settings);
            var key := ChallengeKey(t.challenge.jti);
            && answer == WrongCode
            && Deque(after, key) == Prune(Deque(events, key), t.countedAt - Window(settings)) + [t.countedAt]
            && (forall other :: other != IpKey(t.ip) && other != key ==> (other in after <==> other in events))
  {
    KeysDiffer(t.challenge.jti, t.ip, t.challenge.jti);
    var afterIp := Attempted(events, IpKey(t.ip), settings.ipLimit, settings.ipWindow, t.ipAt).0;
    OtherKeyUntouched(
      events, IpKey(t.ip), settings.ipLimit, settings.ipWindow, t.ipAt, ChallengeKey(t.challenge.jti));
    assert Prune([], t.ipAt - settings.ipWindow) == [];
  }

  lemma AddressesDiffer(j: nat, k: nat)
    requires j != k
    ensures IpKey(Decimal(j)) != IpKey(Decimal(k))
  {
    assert Decimal(j) == IpKey(Decimal(j))[|IP_PREFIX|..];
    assert Decimal(k) == IpKey(Decimal(k))[|IP_PREFIX|..];
    if Decimal(j) == Decimal(k) {
      DecimalInjective(j, k);
    }
  }

  /** `k` codes compared, each at the instant of issue from an address of its own. */
  ghost predicate Filled(events: Events, challenge: Challenge, k: nat) {
    && |Deque(events, ChallengeKey(challenge.jti))| == k
    && AllAt(Deque(events, ChallengeKey(challenge.jti)), challenge.issued)
    && (forall j: nat :: k <= j ==> IpKey(Decimal(j)) !in events)
  }

  lemma NextFills(events: Events, settings: Settings, challenge: Challenge, n: nat)
    requires 0 < settings.minutes && n < settings.attemptLimit && Filled(events, challenge, n)
    ensures var t := WrongTry(challenge, n, challenge.issued, challenge.issued);
            var (after, answer) := Verified(events, t, settings);
            answer == WrongCode && Filled(after, challenge, n + 1)
  {
    var t := WrongTry(challenge, n, challenge.issued, challenge.issued);
    var deque := Deque(events, ChallengeKey(challenge.jti));
    var after := Verified(events, t, settings).0;
    KeepsAll(deque, challenge.issued - Window(settings));
    WrongTryIsCompared(events, t, settings);
    assert Deque(after, ChallengeKey(challenge.jti)) == deque + [challenge.issued];
    forall j: nat | n + 1 <= j
      ensures IpKey(Decimal(j)) !in after
    {
      AddressesDiffer(j, n);
      KeysDiffer(challenge.jti, Decimal(j), challenge.jti);
    }
  }

  /** A burst up to the limit is compared in full. */
  lemma {:induction false} BurstFills(settings: Settings, challenge: Challenge, k: nat)
    requires 0 < settings.attemptLimit && 0 < settings.minutes && k <= settings.attemptLimit
    ensures Comparisons(Burst(challenge, k), settings, challenge.jti) == k
    ensures Filled(RunEvents(Burst(challenge, k), settings), challenge, k)
    decreases k
  {
    if k > 0 {
      BurstFills(settings, challenge, k - 1);
      assert Burst(challenge, k)[..k - 1] == Burst(challenge, k - 1);
      NextFills(RunEvents(Burst(challenge, k - 1), settings), settings, challenge, k - 1);
    }
  }

  function LateRun(challenge: Challenge, limit: nat, decoded: real, counted: real): seq<Event> {
    Burst(challenge, limit) + [Tried(WrongTry(challenge, limit, decoded, counted))]
  }

  /** One try more, decoded while the token lived but counted when the window had moved past the burst. */
  lemma LateTryIsCompared(settings: Settings, challenge: Challenge, decoded: real)
    requires 0 < settings.attemptLimit && 0 < settings.minutes && decoded < Expiry(challenge, settings)
    ensures var run := LateRun(challenge, settings.attemptLimit, decoded, challenge.issued + Window(settings));
            Comparisons(run, settings, challenge.jti) == settings.attemptLimit + 1
  {
    var limit: nat := settings.attemptLimit;
    var late := WrongTry(challenge, limit, decoded, challenge.issued + Window(settings));
    BurstLeavesRoom(settings, challenge, late);
    WrongCodeCounts(Burst(challenge, limit), late, settings);
  }

  lemma BurstLeavesRoom(settings: Settings, challenge: Challenge, late: Try)
    requires 0 < settings.attemptLimit && 0 < settings.minutes && late.decodedAt < Expiry(challenge, settings)
    requires late == WrongTry(
      challenge, settings.attemptLimit, late.decodedAt, challenge.issued + Window(settings))
    ensures var burst := Burst(challenge, settings.attemptLimit);
            && Comparisons(burst, settings, challenge.jti) == settings.attemptLimit
            && Verified(RunEvents(burst, settings), late, settings).1 == WrongCode
  {
    BurstFills(settings, challenge, settings.attemptLimit);
    LateAnswer(RunEvents(Burst(challenge, settings.attemptLimit), settings), late, settings);
  }

  lemma LateAnswer(events: Events, late: Try, settings: Settings)
    requires late.decodedAt < Expiry(late.challenge, settings) && !late.codeOk && IpKey(late.ip) !in events
    requires 0 < settings.attemptLimit && late.countedAt == late.challenge.issued + Window(settings)
    requires AllAt(Deque(events, ChallengeKey(late.challenge.jti)), late.challenge.issued)
    ensures Verified(events, late, settings).1 == WrongCode
  {
    var cutoff := late.countedAt - Window(settings);
    assert cutoff == late.challenge.issued;
    DropsAll(Deque(events, ChallengeKey(late.challenge.jti)), cutoff);
    WrongTryIsCompared(events, late, settings);
  }

  lemma WrongCodeCounts(run: seq<Event>, t: Try, settings: Settings)
    requires Verified(RunEvents(run, settings), t, settings).1 == WrongCode
    ensures Comparisons(run + [Tried(t)], settings, t.challenge.jti)
            == Comparisons(run, settings, t.challenge.jti) + 1
  {
    assert (run + [Tried(t)])[..|run|] == run;
  }

  lemma LateRunIsPrompt(settings: Settings, challenge: Challenge, limit: nat, decoded: real, counted: real, lag: real)
    requires challenge.issued <= decoded <= counted <= decoded + lag
    ensures Prompt(LateRun(challenge, limit, decoded, counted), settings, challenge, lag)
  {
    var run := LateRun(challenge, limit, decoded, counted);
    forall i | 0 <= i < |run|
      ensures EventFits(run[i], challenge, lag)
    {
      if i < limit {
        assert run[i] == Tried(WrongTry(challenge, i, challenge.issued, challenge.issued));
      }
    }
  }

  lemma LateTryIsOneTooMany(settings: Settings, challenge: Challenge, lag: real)
    requires 0 < settings.attemptLimit && 0 < settings.minutes && Slack(challenge, settings) < lag
    ensures !CapHolds(settings, challenge, lag)
  {
    var counted := challenge.issued + Window(settings);
    var decoded := if counted - lag < challenge.issued then challenge.issued else counted - lag;
    LateTryIsCompared(settings, challenge, decoded);
    LateRunIsPrompt(settings, challenge, settings.attemptLimit, decoded, counted, lag);
    var run := LateRun(challenge, settings.attemptLimit, decoded, counted);
  }

  /** The token is decoded before the try is counted, so a request held up between the two can be counted when
      earlier tries have left the window. The cap holds over all runs exactly when no request is held up for
      longer than the fraction of a second that the whole-second expiry cuts off the token. */
  lemma CapHoldsIff(settings: Settings, challenge: Challenge, lag: real)
    requires 0 < settings.attemptLimit && 0 < settings.minutes
    ensures CapHolds(settings, challenge, lag) <==> lag <= Slack(challenge, settings)
  {
    if lag <= Slack(challenge, settings) {
      forall run: seq<Event> | Prompt(run, settings, challenge, lag)
        ensures Comparisons(run, settings, challenge.jti) <= settings.attemptLimit
      {
        AtMostLimitComparisons(run, settings, challenge, lag);
      }
    } else {
      LateTryIsOneTooMany(settings, challenge, lag);
    }
  }
}
