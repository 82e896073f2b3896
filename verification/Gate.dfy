/**
  The request gate of backend/app/main.py (`maintenance_gate`) over the two cached switches.

  Both switches run beside any number of requests, any number of other readers and any number of
  writers. A request decides by early returns: exempt paths first, impersonated writes next, then
  the maintenance switch, then the read-only switch. It asks both in one database session of its own, so
  where it reads the first flag it sees the second as of then.
 */
module Gate {
  import M = Maintenance

  /** `developer` and `impersonated` are what the access token of the request says. */
  datatype Request = Request(path: string, httpMethod: string, developer: bool, impersonated: bool)

  datatype Verdict = Handled | Refused(status: int)

  datatype Phase =
    | Arrived
    | AskingMaintenance(call: nat, session: nat)
    | AskingReadOnly(maintenanceCall: nat, call: nat)
    | Answered(verdict: Verdict, at: real)

  datatype Ticket = Ticket(request: Request, arrived: real, phase: Phase)

  datatype State = State(maintenance: M.State, readOnly: M.State, tickets: map<nat, Ticket>)

  datatype Action =
    | Tick(to: real)
    | Maintenance(step: M.Action)
    | ReadOnly(step: M.Action)
    | Arrive(id: nat, request: Request)
    | Screen(id: nat, call: nat, session: nat)
    | AfterMaintenance(id: nat, call: nat)
    | AfterReadOnly(id: nat)

  const EXEMPT_PREFIXES := [
    "/auth", "/developer", "/storage", "/docs", "/openapi.json", "/health", "/platform/status"]

  predicate Exempt(r: Request) {
    || r.httpMethod == "OPTIONS" || r.httpMethod == "HEAD"
    || exists i :: 0 <= i < |EXEMPT_PREFIXES| && EXEMPT_PREFIXES[i] <= r.path
  }

  predicate IsWrite(r: Request) {
    r.httpMethod != "GET" && r.httpMethod != "HEAD" && r.httpMethod != "OPTIONS"
  }

  /** The next phase of a request that has just arrived; `call` is the call of `is_enabled` it opens, on `session`. */
  function Screened(r: Request, clock: real, call: nat, session: nat): Phase {
    if Exempt(r) then Answered(Handled, clock)
    else if IsWrite(r) && r.impersonated then Answered(Refused(403), clock)
    else AskingMaintenance(call, session)
  }

  function AfterMaintenanceAnswer(r: Request, closed: bool, clock: real, asked: nat, call: nat): Phase {
    if closed then
      if r.developer then Answered(Handled, clock) else Answered(Refused(503), clock)
    else AskingReadOnly(asked, call)
  }

  function AfterReadOnlyAnswer(r: Request, readOnly: bool, clock: real): Phase {
    if readOnly && IsWrite(r) && !r.developer then Answered(Refused(423), clock)
    else Answered(Handled, clock)
  }

  predicate HasReturned(s: M.State, call: nat) {
    call in s.calls && s.calls[call].Returned?
  }

  /** What a step on one switch opens in the database for the other: a snapshot shows both flags. */
  function Opening(s: M.State, step: M.Action, other: M.State): M.Action {
    match step
    case Open(session) => M.Open(session)
    case Fetch(id) =>
      if id in s.calls && s.calls[id].Missed? then M.Open(s.calls[id].session) else Idle(other)
    case _ => Idle(other)
  }

  /** A tick to the instant already reached is a step that changes nothing. */
  function Idle(s: M.State): M.Action { M.Tick(s.clock) }

  function Step(g: State, a: Action): State {
    match a
    case Tick(to) =>
      g.(maintenance := M.Step(g.maintenance, M.Tick(to)), readOnly := M.Step(g.readOnly, M.Tick(to)))
    case Maintenance(step) =>
      if step.Tick? then g
      else g.(maintenance := M.Step(g.maintenance, step),
              readOnly := M.Step(g.readOnly, Opening(g.maintenance, step, g.readOnly)))
    case ReadOnly(step) =>
      if step.Tick? then g
      else g.(maintenance := M.Step(g.maintenance, Opening(g.readOnly, step, g.maintenance)),
              readOnly := M.Step(g.readOnly, step))
    case Arrive(id, r) =>
      if id in g.tickets then g
      else g.(tickets := g.tickets[id := Ticket(r, g.maintenance.clock, Arrived)])
    case Screen(id, call, session) =>
      if && id in g.tickets && g.tickets[id].phase.Arrived? && call !in g.maintenance.calls
         && session !in g.maintenance.sessions then
        var t := g.tickets[id];
        var next := Screened(t.request, g.maintenance.clock, call, session);
        g.(tickets := g.tickets[id := t.(phase := next)],
           maintenance :=
             if next.AskingMaintenance? then M.Step(g.maintenance, M.Begin(call, session)) else g.maintenance)
      else g
    case AfterMaintenance(id, call) =>
      if && id in g.tickets && g.tickets[id].phase.AskingMaintenance?
         && HasReturned(g.maintenance, g.tickets[id].phase.call) && call !in g.readOnly.calls
         && M.MayBegin(g.readOnly, g.tickets[id].phase.session) then
        var t := g.tickets[id];
        var asked := t.phase.call;
        var next := AfterMaintenanceAnswer(
          t.request, g.maintenance.calls[asked].value, g.maintenance.clock, asked, call);
        g.(tickets := g.tickets[id := t.(phase := next)],
           readOnly :=
             if next.AskingReadOnly? then M.Step(g.readOnly, M.Begin(call, t.phase.session)) else g.readOnly)
      else g
    case AfterReadOnly(id) =>
      if && id in g.tickets && g.tickets[id].phase.AskingReadOnly?
         && HasReturned(g.readOnly, g.tickets[id].phase.call) then
        var t := g.tickets[id];
        g.(tickets := g.tickets[id := t.(phase :=
             AfterReadOnlyAnswer(t.request, g.readOnly.calls[t.phase.call].value, g.readOnly.clock))])
      else g
  }

  function Run(g: State, acts: seq<Action>): State
    decreases |acts|
  {
    if acts == [] then g else Run(Step(g, acts[0]), acts[1..])
  }

  ghost predicate Init(g: State) {
    && M.Init(g.maintenance) && M.Init(g.readOnly)
    && g.maintenance.clock == g.readOnly.clock && g.tickets == map[]
  }

  // ---------------------------------------------------------------- what a verdict means

  /** The stored flag of the switch was `v` within TTL (and the age of a snapshot a call may begin on) before the
      arrival, or while the request was open. */
  ghost predicate WasWithinTtl(s: M.State, t: Ticket, v: bool)
    requires t.phase.Answered?
  {
    M.Held(s.log, t.arrived - M.Reach(s), t.phase.at, v)
  }

  /** The methods that cannot change anything, and the requests that are served whatever the switches say, each
      written out. */
  ghost predicate IsSafe(httpMethod: string) {
    httpMethod == "GET" || httpMethod == "HEAD" || httpMethod == "OPTIONS"
  }

  ghost predicate UnderExemptPath(path: string) {
    || "/auth" <= path || "/developer" <= path || "/storage" <= path || "/docs" <= path
    || "/openapi.json" <= path || "/health" <= path || "/platform/status" <= path
  }

  ghost predicate AlwaysServed(r: Request) {
    r.httpMethod == "OPTIONS" || r.httpMethod == "HEAD" || UnderExemptPath(r.path)
  }

  ghost predicate ImpersonatedWrite(r: Request) {
    r.impersonated && !IsSafe(r.httpMethod)
  }

  /** The two tests of the gate say just that. */
  lemma TestsMean(r: Request)
    ensures Exempt(r) <==> AlwaysServed(r)
    ensures IsWrite(r) <==> !IsSafe(r.httpMethod)
  {
    var ps := EXEMPT_PREFIXES;
    assert ps[0] == "/auth" && ps[1] == "/developer" && ps[2] == "/storage" && ps[3] == "/docs";
    assert ps[4] == "/openapi.json" && ps[5] == "/health" && ps[6] == "/platform/status";
  }

  /** The case each verdict stands for, told by the stored flags instead of the cached ones. */
  ghost predicate Explained(g: State, t: Ticket)
    requires t.phase.Answered?
  {
    var r := t.request;
    match t.phase.verdict
    case Handled =>
      || AlwaysServed(r)
      || (&& !ImpersonatedWrite(r)
          && (|| (r.developer && WasWithinTtl(g.maintenance, t, true))
              || (&& WasWithinTtl(g.maintenance, t, false)
                  && (IsSafe(r.httpMethod) || r.developer || WasWithinTtl(g.readOnly, t, false)))))
    case Refused(status) =>
      && !AlwaysServed(r)
      && (|| (status == 403 && ImpersonatedWrite(r))
          || (status == 503 && !r.developer && !ImpersonatedWrite(r) && WasWithinTtl(g.maintenance, t, true))
          || (status == 423 && !r.developer && !IsSafe(r.httpMethod) && !r.impersonated
              && WasWithinTtl(g.maintenance, t, false) && WasWithinTtl(g.readOnly, t, true)))
  }

  /** An open call of a request began after the request arrived. */
  ghost predicate AskedSince(s: M.State, call: nat, arrived: real) {
    call in s.calls && arrived <= s.calls[call].start
  }

  ghost predicate TicketFits(g: State, t: Ticket) {
    var r := t.request;
    && t.arrived <= g.maintenance.clock
    && match t.phase
       case Arrived => true
       case AskingMaintenance(call, _) =>
         && AskedSince(g.maintenance, call, t.arrived)
         && !AlwaysServed(r) && !ImpersonatedWrite(r)
       case AskingReadOnly(maintenanceCall, call) =>
         && AskedSince(g.maintenance, maintenanceCall, t.arrived)
         && HasReturned(g.maintenance, maintenanceCall) && !g.maintenance.calls[maintenanceCall].value
         && AskedSince(g.readOnly, call, t.arrived)
         && !AlwaysServed(r) && !ImpersonatedWrite(r)
       case Answered(_, at) =>
         at <= g.maintenance.clock && Explained(g, t)
  }

  ghost predicate Inv(g: State) {
    && M.Inv(g.maintenance) && M.Inv(g.readOnly)
    && g.maintenance.clock == g.readOnly.clock
    && forall id :: id in g.tickets ==> TicketFits(g, g.tickets[id])
  }

  // ---------------------------------------------------------------- the proof

  /** The log only grows at the clock, so what held before an instant now past keeps having held. */
  lemma HeldSurvives(s: M.State, a: M.Action, after: real, until: real, v: bool)
    requires M.Inv(s) && until <= s.clock && M.Held(s.log, after, until, v)
    ensures M.Held(M.Step(s, a).log, after, until, v)
  {
    var n := M.Step(s, a);
    if n.log != s.log {
      var t :| after < t <= until && M.FlagAt(s.log, t, v);
      M.FlagAtSurvives(s.log, M.Write(s.clock, a.on), t, v);
    }
  }

  /** Stepping one switch never moves a call's start, and a returned call stays as it was. */
  lemma CallsPersist(s: M.State, a: M.Action, call: nat)
    requires call in s.calls
    ensures var n := M.Step(s, a);
            && call in n.calls && n.calls[call].start == s.calls[call].start
            && (s.calls[call].Returned? ==> n.calls[call] == s.calls[call])
  {
  }

  lemma WithinSurvives(s: M.State, a: M.Action, t: Ticket)
    requires M.Inv(s) && t.phase.Answered? && t.phase.at <= s.clock
    ensures forall v :: WasWithinTtl(s, t, v) ==> WasWithinTtl(M.Step(s, a), t, v)
  {
    forall v | WasWithinTtl(s, t, v)
      ensures WasWithinTtl(M.Step(s, a), t, v)
    {
      HeldSurvives(s, a, t.arrived - M.Reach(s), t.phase.at, v);
    }
  }

  lemma ExplainedSurvives(g: State, n: State, t: Ticket)
    requires t.phase.Answered? && Explained(g, t)
    requires forall v :: WasWithinTtl(g.maintenance, t, v) ==> WasWithinTtl(n.maintenance, t, v)
    requires forall v :: WasWithinTtl(g.readOnly, t, v) ==> WasWithinTtl(n.readOnly, t, v)
    ensures Explained(n, t)
  {
  }

  lemma TicketSurvives(g: State, t: Ticket, am: M.Action, ar: M.Action)
    requires M.Inv(g.maintenance) && M.Inv(g.readOnly) && g.maintenance.clock == g.readOnly.clock
    requires TicketFits(g, t)
    ensures TicketFits(g.(maintenance := M.Step(g.maintenance, am), readOnly := M.Step(g.readOnly, ar)), t)
  {
    var n := g.(maintenance := M.Step(g.maintenance, am), readOnly := M.Step(g.readOnly, ar));
    match t.phase
    case Arrived =>
    case AskingMaintenance(call, _) => CallsPersist(g.maintenance, am, call);
    case AskingReadOnly(maintenanceCall, call) =>
      CallsPersist(g.maintenance, am, maintenanceCall);
      CallsPersist(g.readOnly, ar, call);
    case Answered(_, at) =>
      assert Explained(n, t) by {
        WithinSurvives(g.maintenance, am, t);
        WithinSurvives(g.readOnly, ar, t);
        ExplainedSurvives(g, n, t);
      }
  }

  /** Any pair of switch steps that leaves the clocks together keeps every ticket fitting. */
  lemma SwitchesKeepInv(g: State, am: M.Action, ar: M.Action)
    requires Inv(g)
    requires M.Step(g.maintenance, am).clock == M.Step(g.readOnly, ar).clock
    ensures Inv(g.(maintenance := M.Step(g.maintenance, am), readOnly := M.Step(g.readOnly, ar)))
  {
    M.StepKeepsInv(g.maintenance, am);
    M.StepKeepsInv(g.readOnly, ar);
    forall id | id in g.tickets
      ensures TicketFits(
        g.(maintenance := M.Step(g.maintenance, am), readOnly := M.Step(g.readOnly, ar)), g.tickets[id])
    {
      TicketSurvives(g, g.tickets[id], am, ar);
    }
  }

  lemma ReturnedWithinTtl(s: M.State, t: Ticket, call: nat, at: real)
    requires M.Inv(s) && AskedSince(s, call, t.arrived) && HasReturned(s, call) && at == s.clock
    requires t.phase.Answered? && t.phase.at == at
    ensures WasWithinTtl(s, t, s.calls[call].value)
  {
    var c := s.calls[call];
    assert M.CallFits(s, c);
    var u :| c.start - M.Reach(s) < u <= c.end && M.FlagAt(s.log, u, c.value);
  }

  lemma AnswersKeepInv(g: State, a: Action)
    requires Inv(g) && (a.AfterMaintenance? || a.AfterReadOnly?)
    ensures Inv(Step(g, a))
  {
    var n := Step(g, a);
    if n != g {
      var before := g.tickets[a.id];
      var now := n.tickets[a.id];
      TestsMean(before.request);
      if a.AfterMaintenance? && now.phase.AskingReadOnly? {
        SwitchesKeepInv(g, Idle(g.maintenance), M.Begin(a.call, before.phase.session));
      }
      if now.phase.Answered? {
        if a.AfterMaintenance? {
          ReturnedWithinTtl(g.maintenance, now, before.phase.call, g.maintenance.clock);
        } else {
          ReturnedWithinTtl(g.maintenance, now, before.phase.maintenanceCall, g.maintenance.clock);
          ReturnedWithinTtl(g.readOnly, now, before.phase.call, g.readOnly.clock);
        }
        assert Explained(g, now);
      }
      assert TicketFits(n, now);
    }
  }

  lemma ScreenKeepsInv(g: State, id: nat, call: nat, session: nat)
    requires Inv(g)
    ensures Inv(Step(g, Screen(id, call, session)))
  {
    var n := Step(g, Screen(id, call, session));
    if n != g {
      TestsMean(g.tickets[id].request);
      if n.tickets[id].phase.AskingMaintenance? {
        SwitchesKeepInv(g, M.Begin(call, session), Idle(g.readOnly));
      }
      assert TicketFits(n, n.tickets[id]);
    }
  }

  lemma StepKeepsInv(g: State, a: Action)
    requires Inv(g)
    ensures Inv(Step(g, a))
  {
    match a
    case Tick(to) => SwitchesKeepInv(g, M.Tick(to), M.Tick(to));
    case Maintenance(step) =>
      if !step.Tick? { SwitchesKeepInv(g, step, Opening(g.maintenance, step, g.readOnly)); }
    case ReadOnly(step) =>
      if !step.Tick? { SwitchesKeepInv(g, Opening(g.readOnly, step, g.maintenance), step); }
    case Arrive(id, r) =>
    case Screen(id, call, session) => ScreenKeepsInv(g, id, call, session);
    case AfterMaintenance(id, call) => AnswersKeepInv(g, a);
    case AfterReadOnly(id) => AnswersKeepInv(g, a);
  }

  type Sessions = map<nat, M.Snapshot>

  ghost predicate SameInstants(m: Sessions, r: Sessions) {
    m.Keys == r.Keys && forall k :: k in m ==> m[k].at == r[k].at
  }

  /** One database: a session's snapshot shows both flags as of one instant. */
  ghost predicate SharedSnapshots(g: State) {
    SameInstants(g.maintenance.sessions, g.readOnly.sessions)
  }

  lemma OpenedTogether(m: M.State, r: M.State, session: nat)
    requires m.log != [] && r.log != [] && m.clock == r.clock && SameInstants(m.sessions, r.sessions)
    ensures SameInstants(M.Opened(m, session), M.Opened(r, session))
  {
  }

  /** A step opens the session it names, or that of the call it reads for, and no other. */
  lemma SessionsAfter(s: M.State, step: M.Action)
    requires s.log != []
    ensures M.Step(s, step).sessions
            == match step
               case Open(session) => M.Opened(s, session)
               case Fetch(id) =>
                 if id in s.calls && s.calls[id].Missed? then M.Opened(s, s.calls[id].session) else s.sessions
               case _ => s.sessions
  {
  }

  lemma OpeningShares(s: M.State, step: M.Action, other: M.State)
    requires s.log != [] && other.log != [] && s.clock == other.clock && SameInstants(s.sessions, other.sessions)
    ensures SameInstants(M.Step(s, step).sessions, M.Step(other, Opening(s, step, other)).sessions)
  {
    SessionsAfter(s, step);
    SessionsAfter(other, Opening(s, step, other));
    match step
    case Open(session) => OpenedTogether(s, other, session);
    case Fetch(id) =>
      if id in s.calls && s.calls[id].Missed? {
        OpenedTogether(s, other, s.calls[id].session);
      }
    case _ =>
  }

  lemma StepKeepsShared(g: State, a: Action)
    requires Inv(g) && SharedSnapshots(g)
    ensures SharedSnapshots(Step(g, a))
  {
    match a
    case Maintenance(step) => OpeningShares(g.maintenance, step, g.readOnly);
    case ReadOnly(step) => OpeningShares(g.readOnly, step, g.maintenance);
    case Tick(to) =>
    case Arrive(id, r) =>
    case Screen(id, call, session) => SessionsAfter(g.maintenance, M.Begin(call, session));
    case AfterMaintenance(id, call) => AskKeepsSessions(g, id, call);
    case AfterReadOnly(id) =>
  }

  lemma AskKeepsSessions(g: State, id: nat, call: nat)
    ensures var n := Step(g, AfterMaintenance(id, call));
            n.maintenance.sessions == g.maintenance.sessions && n.readOnly.sessions == g.readOnly.sessions
  {
  }

  lemma {:induction false} RunKeepsInv(g: State, acts: seq<Action>)
    requires Inv(g) && SharedSnapshots(g)
    ensures Inv(Run(g, acts)) && SharedSnapshots(Run(g, acts))
    decreases |acts|
  {
    if acts != [] {
      StepKeepsInv(g, acts[0]);
      StepKeepsShared(g, acts[0]);
      RunKeepsInv(Step(g, acts[0]), acts[1..]);
    }
  }

  // ---------------------------------------------------------------- main results

  predicate AnsweredWith(g: State, id: nat, verdict: Verdict) {
    id in g.tickets && g.tickets[id].phase.Answered? && g.tickets[id].phase.verdict == verdict
  }

  /** Every verdict of every run is explained by what the stored flags were, not by what was cached. */
  lemma EveryVerdictIsExplained(g: State, acts: seq<Action>, id: nat)
    requires Init(g) && id in Run(g, acts).tickets && Run(g, acts).tickets[id].phase.Answered?
    ensures Explained(Run(g, acts), Run(g, acts).tickets[id])
  {
    RunKeepsInv(g, acts);
  }

  /** Any other method than GET, HEAD and OPTIONS, outside the seven exempt paths and not from a developer, reaches a
      handler only if it is not impersonated and both stored flags were off at some instant of that span before the
      request or while it was being checked. */
  lemma WritesNeedBothSwitchesOff(g: State, acts: seq<Action>, id: nat)
    requires Init(g) && AnsweredWith(Run(g, acts), id, Handled)
    requires var r := Run(g, acts).tickets[id].request;
             r.httpMethod !in {"GET", "HEAD", "OPTIONS"} && !UnderExemptPath(r.path) && !r.developer
    ensures var end := Run(g, acts); var t := end.tickets[id];
            && !t.request.impersonated
            && WasWithinTtl(end.maintenance, t, false) && WasWithinTtl(end.readOnly, t, false)
  {
    RunKeepsInv(g, acts);
  }

  /** A GET is never refused for impersonation or for read-only mode; what is refused is refused with one of three
      statuses, a 503 to nobody who is a developer. */
  lemma ReadsMeetOnlyTheClosedSite(g: State, acts: seq<Action>, id: nat)
    requires Init(g) && id in Run(g, acts).tickets && Run(g, acts).tickets[id].phase.Answered?
    requires Run(g, acts).tickets[id].phase.verdict.Refused?
    ensures var t := Run(g, acts).tickets[id]; var status := t.phase.verdict.status;
            && status in {403, 503, 423} && (status == 503 ==> !t.request.developer)
            && (t.request.httpMethod == "GET" ==> status == 503)
  {
    RunKeepsInv(g, acts);
  }

  /** OPTIONS, HEAD and whatever lies under the seven exempt paths is handled in every state of the switches. */
  lemma ExemptRequestsAreHandled(g: State, acts: seq<Action>, id: nat)
    requires Init(g) && id in Run(g, acts).tickets && Run(g, acts).tickets[id].phase.Answered?
    requires var r := Run(g, acts).tickets[id].request;
             r.httpMethod in {"OPTIONS", "HEAD"} || UnderExemptPath(r.path)
    ensures Run(g, acts).tickets[id].phase.verdict == Handled
  {
    RunKeepsInv(g, acts);
  }

  /** An impersonated session writes nothing outside them, whoever it is and whatever the switches say. */
  lemma ImpersonationWritesNothing(g: State, acts: seq<Action>, id: nat)
    requires Init(g) && id in Run(g, acts).tickets && Run(g, acts).tickets[id].phase.Answered?
    requires var r := Run(g, acts).tickets[id].request;
             r.impersonated && r.httpMethod !in {"GET", "HEAD", "OPTIONS"} && !UnderExemptPath(r.path)
    ensures Run(g, acts).tickets[id].phase.verdict == Refused(403)
  {
    RunKeepsInv(g, acts);
  }

  /** A developer who is not impersonating is never refused, in any state of either switch. */
  lemma DevelopersAreNeverRefused(g: State, acts: seq<Action>, id: nat)
    requires Init(g) && id in Run(g, acts).tickets && Run(g, acts).tickets[id].phase.Answered?
    requires var r := Run(g, acts).tickets[id].request; r.developer && !r.impersonated
    ensures Run(g, acts).tickets[id].phase.verdict == Handled
  {
    RunKeepsInv(g, acts);
  }

  /** The switch was `v`, by its write k, for so long before the request arrived and still when it was answered. */
  ghost predicate Settled(s: M.State, t: Ticket, k: nat, v: bool)
    requires t.phase.Answered?
  {
    && k < |s.log| && s.log[k].value == v && s.log[k].at + M.Reach(s) <= t.arrived
    && (k + 1 < |s.log| ==> t.phase.at < s.log[k + 1].at)
  }

  /** So long settled, the switch cannot be taken for anything else. */
  lemma SettledSwitchIsSeen(s: M.State, t: Ticket, k: nat, v: bool)
    requires M.Inv(s) && t.phase.Answered? && Settled(s, t, k, v)
    ensures !WasWithinTtl(s, t, !v)
  {
    if WasWithinTtl(s, t, !v) {
      M.WindowAfterWrite(s.log, s.clock, k, t.arrived - M.Reach(s), t.phase.at, !v);
    }
  }

  /** Once maintenance has been on, unbroken, so long before the request arrived and until it was answered, every
      request of a non-developer outside the exempt paths is refused, the owner's included: with a 503, or with the
      403 of an impersonated write. */
  lemma ClosedSiteIsClosed(g: State, acts: seq<Action>, id: nat, k: nat)
    requires Init(g) && id in Run(g, acts).tickets && Run(g, acts).tickets[id].phase.Answered?
    requires var end := Run(g, acts); var t := end.tickets[id];
             && t.request.httpMethod !in {"HEAD", "OPTIONS"} && !UnderExemptPath(t.request.path)
             && !t.request.developer && Settled(end.maintenance, t, k, true)
    ensures var t := Run(g, acts).tickets[id];
            t.phase.verdict == Refused(if t.request.impersonated && t.request.httpMethod != "GET" then 403 else 503)
  {
    RunKeepsInv(g, acts);
    var end := Run(g, acts);
    SettledSwitchIsSeen(end.maintenance, end.tickets[id], k, true);
  }

  /** Once read-only has been on so long, no write of a non-developer outside the exempt paths does. */
  lemma ReadOnlySiteTakesNoWrites(g: State, acts: seq<Action>, id: nat, k: nat)
    requires Init(g) && id in Run(g, acts).tickets && Run(g, acts).tickets[id].phase.Answered?
    requires var end := Run(g, acts); var t := end.tickets[id];
             && t.request.httpMethod !in {"GET", "HEAD", "OPTIONS"} && !UnderExemptPath(t.request.path)
             && !t.request.developer && Settled(end.readOnly, t, k, true)
    ensures Run(g, acts).tickets[id].phase.verdict.Refused?
  {
    RunKeepsInv(g, acts);
    var end := Run(g, acts);
    SettledSwitchIsSeen(end.readOnly, end.tickets[id], k, true);
  }

  /** Once both have been off so long, every request is handled but the write of an impersonated session. */
  lemma OpenSiteIsOpen(g: State, acts: seq<Action>, id: nat, j: nat, k: nat)
    requires Init(g) && id in Run(g, acts).tickets && Run(g, acts).tickets[id].phase.Answered?
    requires var end := Run(g, acts); var t := end.tickets[id];
             Settled(end.maintenance, t, j, false) && Settled(end.readOnly, t, k, false)
    ensures var t := Run(g, acts).tickets[id];
            t.phase.verdict.Handled?
            <==> || UnderExemptPath(t.request.path) || t.request.httpMethod in {"GET", "HEAD", "OPTIONS"}
                 || !t.request.impersonated
  {
    RunKeepsInv(g, acts);
    var end := Run(g, acts);
    SettledSwitchIsSeen(end.maintenance, end.tickets[id], j, false);
    SettledSwitchIsSeen(end.readOnly, end.tickets[id], k, false);
  }

  // ---------------------------------------------------------------- a request that nothing overlaps

  /** The verdict on a request alone, from the two stored flags. */
  ghost function VerdictOf(r: Request, closed: bool, readOnly: bool): Verdict {
    if AlwaysServed(r) then Handled
    else if ImpersonatedWrite(r) then Refused(403)
    else if r.developer then Handled
    else if closed then Refused(503)
    else if readOnly && !IsSafe(r.httpMethod) then Refused(423)
    else Handled
  }

  function AskMaintenance(): seq<Action> {
    [Maintenance(M.Check(0)), Maintenance(M.Fetch(0)), Maintenance(M.Store(0))]
  }

  function AskReadOnly(): seq<Action> {
    [ReadOnly(M.Check(0)), ReadOnly(M.Fetch(0)), ReadOnly(M.Store(0))]
  }

  /** All its steps; those that come after its answer find nothing to do. */
  function WholeRequest(r: Request): seq<Action> {
    [Arrive(0, r), Screen(0, 0, 0)] + AskMaintenance()
    + (([AfterMaintenance(0, 0)] + AskReadOnly()) + [AfterReadOnly(0)])
  }

  lemma {:induction false} RunConcat(g: State, a: seq<Action>, b: seq<Action>)
    ensures Run(g, a + b) == Run(Run(g, a), b)
    decreases |a|
  {
    if a == [] {
      assert a + b == b;
    } else {
      assert (a + b)[1..] == a[1..] + b;
      RunConcat(Step(g, a[0]), a[1..], b);
    }
  }

  lemma RunThree(g: State, a: Action, b: Action, c: Action)
    ensures Run(g, [a, b, c]) == Step(Step(Step(g, a), b), c)
  {
    assert [a, b, c][1..] == [b, c];
    RunTwo(Step(g, a), b, c);
  }

  lemma RunTwo(g: State, a: Action, b: Action)
    ensures Run(g, [a, b]) == Step(Step(g, a), b)
  {
    assert [a, b][1..] == [b];
    RunOne(Step(g, a), b);
  }

  lemma RunOne(g: State, a: Action)
    ensures Run(g, [a]) == Step(g, a)
  {
    assert [a][1..] == [];
  }

  /** Nothing cached and no session open yet. */
  ghost predicate Fresh(s: M.State, at: real) {
    s.log != [] && s.clock == at && s.cache == M.EMPTY_CACHE && s.sessions == map[] && 0.0 <= s.age
  }

  /** A call just begun, left alone, answers what its session sees. */
  lemma CallGoesThrough(s: M.State)
    requires s.log != [] && s.cache == M.EMPTY_CACHE && 0 in s.calls && s.calls[0] == M.Started(s.clock, 0)
    ensures var s1 := M.Step(s, M.Check(0)); var s2 := M.Step(s1, M.Fetch(0)); var s3 := M.Step(s2, M.Store(0));
            && s1 == s.(calls := s.calls[0 := M.Missed(s.clock, 0)])
            && s2 == s.(calls := s.calls[0 := M.Loaded(s.clock, M.Seen(s, 0))], sessions := M.Opened(s, 0))
            && s3.calls == s.calls[0 := M.Returned(s.clock, M.Seen(s, 0), s.clock)]
  {
    var s1 := M.Step(s, M.Check(0));
    assert M.Lookup(s.cache, s.clock).None?;
    assert s1 == s.(calls := s.calls[0 := M.Missed(s.clock, 0)]);
    var s2 := M.Step(s1, M.Fetch(0));
    assert M.Seen(s1, 0) == M.Seen(s, 0) && M.Opened(s1, 0) == M.Opened(s, 0);
    assert s2.calls == s.calls[0 := M.Loaded(s.clock, M.Seen(s, 0))];
    assert s2 == s.(calls := s.calls[0 := M.Loaded(s.clock, M.Seen(s, 0))], sessions := M.Opened(s, 0));
    var s3 := M.Step(s2, M.Store(0));
    assert s3.calls == s.calls[0 := M.Returned(s.clock, M.Seen(s, 0), s.clock)];
  }

  /** Asking the first switch: its answer, and one snapshot of both flags. */
  lemma MaintenanceAnswers(g: State)
    requires Fresh(g.maintenance, g.maintenance.clock) && Fresh(g.readOnly, g.maintenance.clock)
    requires 0 in g.maintenance.calls && g.maintenance.calls[0] == M.Started(g.maintenance.clock, 0)
    ensures var n := Run(g, AskMaintenance());
            && n.tickets == g.tickets && n.maintenance.clock == g.maintenance.clock
            && 0 in n.maintenance.calls && n.maintenance.calls[0].Returned?
            && n.maintenance.calls[0].value == M.StoredFlag(g.maintenance)
            && n.readOnly == M.Step(g.readOnly, M.Open(0))
  {
    CallGoesThrough(g.maintenance);
    var a, b, c := Maintenance(M.Check(0)), Maintenance(M.Fetch(0)), Maintenance(M.Store(0));
    RunThree(g, a, b, c);
    var g1 := Step(g, a);
    assert g1.readOnly == g.readOnly;
    var g2 := Step(g1, b);
    assert g2.readOnly == M.Step(g.readOnly, M.Open(0));
  }

  /** Asking the second, in a session that shows it as of then. */
  lemma ReadOnlyAnswers(g: State)
    requires g.readOnly.log != [] && g.readOnly.cache == M.EMPTY_CACHE
    requires 0 in g.readOnly.calls && g.readOnly.calls[0] == M.Started(g.readOnly.clock, 0)
    ensures var n := Run(g, AskReadOnly());
            && n.tickets == g.tickets && n.readOnly.clock == g.readOnly.clock
            && 0 in n.readOnly.calls && n.readOnly.calls[0].Returned?
            && n.readOnly.calls[0].value == M.Seen(g.readOnly, 0)
  {
    CallGoesThrough(g.readOnly);
    RunThree(g, ReadOnly(M.Check(0)), ReadOnly(M.Fetch(0)), ReadOnly(M.Store(0)));
  }

  lemma RunFour(g: State, a: seq<Action>, b: seq<Action>, c: seq<Action>, d: seq<Action>)
    ensures Run(g, a + b + (c + d)) == Run(Run(Run(Run(g, a), b), c), d)
  {
    RunConcat(g, a + b, c + d);
    RunConcat(g, a, b);
    RunConcat(Run(g, a + b), c, d);
  }

  /** A request that is answered stays so. */
  lemma {:induction false} AnswersStay(g: State, acts: seq<Action>, id: nat)
    requires id in g.tickets && g.tickets[id].phase.Answered?
    ensures id in Run(g, acts).tickets && Run(g, acts).tickets[id] == g.tickets[id]
    decreases |acts|
  {
    if acts != [] {
      AnswersStay(Step(g, acts[0]), acts[1..], id);
    }
  }

  lemma Screening(g: State, r: Request)
    requires Init(g)
    ensures var n := Run(g, [Arrive(0, r), Screen(0, 0, 0)]);
            && 0 in n.tickets && n.tickets[0].request == r
            && (AlwaysServed(r) ==> AnsweredWith(n, 0, Handled))
            && (!AlwaysServed(r) && ImpersonatedWrite(r) ==> AnsweredWith(n, 0, Refused(403)))
            && (!AlwaysServed(r) && !ImpersonatedWrite(r) ==>
                  && n.tickets[0].phase == AskingMaintenance(0, 0) && n.readOnly == g.readOnly
                  && n.maintenance == g.maintenance.(calls := map[0 := M.Started(g.maintenance.clock, 0)]))
  {
    TestsMean(r);
    RunTwo(g, Arrive(0, r), Screen(0, 0, 0));
  }

  /** Between the two questions: the request is answered, or the second one is begun. */
  lemma BetweenTheTwo(g: State)
    requires 0 in g.tickets && g.tickets[0].phase == AskingMaintenance(0, 0)
    requires HasReturned(g.maintenance, 0) && g.readOnly.calls == map[] && M.MayBegin(g.readOnly, 0)
    ensures var n := Step(g, AfterMaintenance(0, 0)); var r := g.tickets[0].request;
            && 0 in n.tickets && n.tickets[0].request == r
            && (g.maintenance.calls[0].value ==> AnsweredWith(n, 0, if r.developer then Handled else Refused(503)))
            && (!g.maintenance.calls[0].value ==>
                  && n.tickets[0].phase == AskingReadOnly(0, 0)
                  && n.readOnly == g.readOnly.(calls := map[0 := M.Started(g.readOnly.clock, 0)]))
  {
  }

  lemma SecondAnswer(g: State, readOnly: bool)
    requires 0 in g.tickets && g.tickets[0].phase == AskingReadOnly(0, 0)
    requires 0 in g.readOnly.calls && g.readOnly.calls[0].Returned? && g.readOnly.calls[0].value == readOnly
    ensures var r := g.tickets[0].request;
            AnsweredWith(
              Run(g, [AfterReadOnly(0)]), 0,
              if readOnly && !IsSafe(r.httpMethod) && !r.developer then Refused(423) else Handled)
  {
    TestsMean(g.tickets[0].request);
    RunOne(g, AfterReadOnly(0));
  }

  /** From the answer to the first question on, if it was that the site is closed. */
  lemma ClosedHalf(g: State)
    requires 0 in g.tickets && g.tickets[0].phase == AskingMaintenance(0, 0)
    requires HasReturned(g.maintenance, 0) && g.maintenance.calls[0].value
    requires g.readOnly.calls == map[] && M.MayBegin(g.readOnly, 0)
    ensures var end := Run(Run(g, [AfterMaintenance(0, 0)] + AskReadOnly()), [AfterReadOnly(0)]);
            AnsweredWith(end, 0, if g.tickets[0].request.developer then Handled else Refused(503))
  {
    BetweenTheTwo(g);
    RunConcat(g, [AfterMaintenance(0, 0)], AskReadOnly());
    RunOne(g, AfterMaintenance(0, 0));
    AnswersStay(Step(g, AfterMaintenance(0, 0)), AskReadOnly(), 0);
    AnswersStay(Run(g, [AfterMaintenance(0, 0)] + AskReadOnly()), [AfterReadOnly(0)], 0);
  }

  /** If it was that it is open. */
  lemma OpenHalf(g: State, readOnly: bool)
    requires 0 in g.tickets && g.tickets[0].phase == AskingMaintenance(0, 0)
    requires HasReturned(g.maintenance, 0) && !g.maintenance.calls[0].value
    requires g.readOnly.calls == map[] && g.readOnly.log != [] && g.readOnly.cache == M.EMPTY_CACHE
    requires M.MayBegin(g.readOnly, 0) && M.Seen(g.readOnly, 0) == readOnly
    ensures var r := g.tickets[0].request;
            AnsweredWith(
              Run(Run(g, [AfterMaintenance(0, 0)] + AskReadOnly()), [AfterReadOnly(0)]), 0,
              if readOnly && !IsSafe(r.httpMethod) && !r.developer then Refused(423) else Handled)
  {
    BetweenTheTwo(g);
    RunConcat(g, [AfterMaintenance(0, 0)], AskReadOnly());
    RunOne(g, AfterMaintenance(0, 0));
    var between := Step(g, AfterMaintenance(0, 0));
    assert M.Seen(between.readOnly, 0) == M.Seen(g.readOnly, 0);
    ReadOnlyAnswers(between);
    SecondAnswer(Run(between, AskReadOnly()), readOnly);
  }

  /** The snapshot opened for the first flag shows the second. */
  lemma OpenedForBoth(s: M.State)
    requires s.log != [] && s.sessions == map[] && 0.0 <= s.age
    ensures var n := M.Step(s, M.Open(0));
            && n == s.(sessions := n.sessions) && M.MayBegin(n, 0) && M.Seen(n, 0) == M.StoredFlag(s)
  {
  }

  /** Whatever the two flags say, a request that nothing overlaps is answered, and by the flags as they are stored. */
  lemma AloneIsAnsweredByTheFlags(g: State, r: Request)
    requires Init(g)
    ensures AnsweredWith(
              Run(g, WholeRequest(r)), 0, VerdictOf(r, M.StoredFlag(g.maintenance), M.StoredFlag(g.readOnly)))
  {
    var first, second := [Arrive(0, r), Screen(0, 0, 0)], [AfterMaintenance(0, 0)] + AskReadOnly();
    RunFour(g, first, AskMaintenance(), second, [AfterReadOnly(0)]);
    Screening(g, r);
    var g1 := Run(g, first);
    if g1.tickets[0].phase.Answered? {
      AnswersStay(g1, AskMaintenance(), 0);
      AnswersStay(Run(g1, AskMaintenance()), second, 0);
      AnswersStay(Run(Run(g1, AskMaintenance()), second), [AfterReadOnly(0)], 0);
    } else {
      MaintenanceAnswers(g1);
      OpenedForBoth(g.readOnly);
      if M.StoredFlag(g.maintenance) {
        ClosedHalf(Run(g1, AskMaintenance()));
      } else {
        OpenHalf(Run(g1, AskMaintenance()), M.StoredFlag(g.readOnly));
      }
    }
  }
}
