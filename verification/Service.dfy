// The renderer service: one render handler, the middleware around every
// request, and the metrics of any number of interleaved requests.
module Service {
  import opened Basics
  import opened Inventory
  import opened PopulateSpec
  import opened Client
  import opened Models
  import opened Invariants
  import opened Loader
  import opened LoadOrder
  import opened FixtureView
  import opened RoundTrip
  import opened Emitter

  // ----- one render -----------------------------------------------------------------

  // What the template engine does with a template and its context; Interrupted
  // is a BaseException that is no Exception.
  datatype TemplateResult = Rendered(body: string) | TemplateError | TemplateInterrupted

  type Engine = (string, HostIntent, int) -> TemplateResult

  // How a handler ends. Other stands for every route but the render routes.
  datatype HandlerEnd =
    | Body(role: Role, body: string)
    | LoadFailed(error: LoadError)
    | RenderFailed(role: Role)
    | RenderInterrupted(role: Role)
    | Other(status: int)

  datatype RenderLabel = RenderLabel(role: string, outcome: string)

  function EndOf(load: Loaded<HostIntent>, kind: FileKind, engine: Engine, now: int): HandlerEnd {
    match load
    case Err(e) => LoadFailed(e)
    case Ok(i) =>
      match engine(RoleValue(i.role) + "/" + FileKindValue(kind) + ".j2", Canonical(i), now)
      case Rendered(body) => Body(i.role, body)
      case TemplateError => RenderFailed(i.role)
      case TemplateInterrupted => RenderInterrupted(i.role)
  }

  // The outcome a handler that ends this way has counted, if any: a field
  // error of the load is none of the three exceptions it catches.
  function Counted(end: HandlerEnd): Option<RenderLabel> {
    match end
    case Body(role, _) => Some(RenderLabel(RoleValue(role), "success"))
    case LoadFailed(HostNotFound) => Some(RenderLabel("unknown", "netbox_error"))
    case LoadFailed(NetboxQuery(_)) => Some(RenderLabel("unknown", "netbox_error"))
    case LoadFailed(InvariantViolated(_)) => Some(RenderLabel("unknown", "validation_error"))
    case LoadFailed(FieldInvalid(_)) => None
    case RenderFailed(role) => Some(RenderLabel(RoleValue(role), "template_error"))
    case RenderInterrupted(_) => None
    case Other(_) => None
  }

  class RenderMetrics {
    var renders: multiset<RenderLabel>
    var renderDurations: multiset<string>
    var netboxQueries: nat

    constructor ()
      ensures renders == multiset{} && renderDurations == multiset{} && netboxQueries == 0
    {
      renders, renderDurations, netboxQueries := multiset{}, multiset{}, 0;
    }
  }

  // Stage 1 failed: the outcome its except clauses count.
  method CountLoadFailure(metrics: RenderMetrics, error: LoadError)
    modifies metrics
    ensures metrics.renders ==
            old(metrics.renders) + if Counted(LoadFailed(error)).Some? then
            multiset{Counted(LoadFailed(error)).value} else multiset{}
    ensures metrics.netboxQueries == old(metrics.netboxQueries)
            && metrics.renderDurations == old(metrics.renderDurations)
  {
    match error {
      case HostNotFound => metrics.renders := metrics.renders + multiset{RenderLabel("unknown", "netbox_error")};
      case NetboxQuery(_) => metrics.renders := metrics.renders + multiset{RenderLabel("unknown", "netbox_error")};
      case InvariantViolated(_) =>
        metrics.renders := metrics.renders + multiset{RenderLabel("unknown", "validation_error")};
      case FieldInvalid(_) =>
    }
  }

  // Stage 2: render the template and respond.
  method RenderBody(metrics: RenderMetrics, intent: HostIntent, kind: FileKind, engine: Engine,
                    now: int) returns (end: HandlerEnd)
    modifies metrics
    ensures end == EndOf(Ok(intent), kind, engine, now)
    ensures metrics.renders ==
            old(metrics.renders) + if Counted(end).Some? then multiset{Counted(end).value} else multiset{}
    ensures metrics.netboxQueries == old(metrics.netboxQueries)
    ensures metrics.renderDurations ==
            old(metrics.renderDurations) + if end.Body? then multiset{RoleValue(end.role)} else multiset{}
  {
    hide Canonical, RoleValue, ParseFileKind, FileKindValue;
    var role := RoleValue(intent.role);
    FileKindParses(kind);
    var template, ctx := PrepareRender(intent, FileKindValue(kind), Some(now), now);
    match engine(template, ctx.Value(), now) {
      case TemplateError =>
        metrics.renders := metrics.renders + multiset{RenderLabel(role, "template_error")};
        end := RenderFailed(intent.role);
      case TemplateInterrupted =>
        end := RenderInterrupted(intent.role);
      case Rendered(body) =>
        metrics.renderDurations := metrics.renderDurations + multiset{role};
        metrics.renders := metrics.renders + multiset{RenderLabel(role, "success")};
        end := Body(intent.role, body);
    }
  }

  // The handler of a render route.
  method RenderEndpoint(metrics: RenderMetrics, client: NetboxClient, tag: string, kind: FileKind, engine: Engine,
                        now: int)
    returns (end: HandlerEnd, ghost load: Loaded<HostIntent>, ghost ids: seq<Id>)
    modifies metrics, client
    ensures client.store == old(client.store)
    ensures forall id :: id in ids ==> id in client.store.base.ifaces.rows
    ensures load.Ok? ==> tag in client.store.base.devices.index
                         && Listing(ids, client.store.base, client.store.base.devices.index[tag])
    ensures Delivers(load, Load(client.store, tag, ids), old(client.fault))
    ensures end == EndOf(load, kind, engine, now)
    ensures metrics.renders ==
            old(metrics.renders) + if Counted(end).Some? then multiset{Counted(end).value} else multiset{}
    ensures metrics.netboxQueries == old(metrics.netboxQueries) + if load.Ok? then 1 else 0
    ensures metrics.renderDurations ==
            old(metrics.renderDurations) + if end.Body? then multiset{RoleValue(end.role)} else multiset{}
  {
    hide Load, Canonical, Listing, RoleValue, Delivers, Counted, FileKindValue;
    var loaded;
    loaded, ids := LoadHostIntent(client, tag);
    load := loaded;
    if loaded.Err? {
      CountLoadFailure(metrics, loaded.error);
      end := LoadFailed(loaded.error);
    } else {
      metrics.netboxQueries := metrics.netboxQueries + 1;
      end := RenderBody(metrics, loaded.value, kind, engine, now);
    }
  }

  lemma FileKindParses(kind: FileKind)
    ensures ParseFileKind(FileKindValue(kind)) == Some(kind)
  {
  }

  // ----- the middleware -----------------------------------------------------------------

  const RENDER_PREFIX := "/v1/render/"
  const UNMATCHED := "<unmatched>"

  datatype Label = Label(verb: string, path: string, status: int)

  // How call_next ends: the app's exception handlers have turned the typed
  // errors into responses.
  datatype CallResult = Response(status: int) | Raised | Cancelled

  function CallOf(end: HandlerEnd): CallResult {
    match end
    case Body(_, _) => Response(200)
    case LoadFailed(HostNotFound) => Response(404)
    case LoadFailed(InvariantViolated(_)) => Response(422)
    case LoadFailed(NetboxQuery(_)) => Response(502)
    case LoadFailed(FieldInvalid(_)) => Raised
    case RenderFailed(_) => Raised
    case RenderInterrupted(_) => Cancelled
    case Other(status) => Response(status)
  }

  // Which end gives which answer: 404 an unknown host, 422 a violated invariant,
  // 502 a failed query, 200 a body. Field and template errors escape, an
  // interruption cancels, and what is counted for them is 500.
  lemma Answers(end: HandlerEnd)
    ensures !end.Other? ==>
              && (CallOf(end) == Response(404) <==> end == LoadFailed(HostNotFound))
              && (CallOf(end) == Response(422) <==> end.LoadFailed? && end.error.InvariantViolated?)
              && (CallOf(end) == Response(502) <==> end.LoadFailed? && end.error.NetboxQuery?)
              && (CallOf(end) == Response(200) <==> end.Body?)
              && (CallOf(end) == Raised <==> end.RenderFailed? || (end.LoadFailed? && end.error.FieldInvalid?))
              && (CallOf(end) == Cancelled <==> end.RenderInterrupted?)
    ensures end.Other? ==> CallOf(end) == Response(end.status)
    ensures StatusLabel(Raised) == StatusLabel(Cancelled) == 500
    ensures forall status :: StatusLabel(Response(status)) == status
  {
  }

  // Which outcome is counted, and under which role.
  lemma Outcomes(end: HandlerEnd)
    ensures end.Body? ==> Counted(end) == Some(RenderLabel(RoleName(end.role), "success"))
    ensures end.RenderFailed? ==> Counted(end) == Some(RenderLabel(RoleName(end.role), "template_error"))
    ensures end.LoadFailed? && (end.error.HostNotFound? || end.error.NetboxQuery?) ==>
              Counted(end) == Some(RenderLabel("unknown", "netbox_error"))
    ensures end.LoadFailed? && end.error.InvariantViolated? ==>
              Counted(end) == Some(RenderLabel("unknown", "validation_error"))
    ensures (end.LoadFailed? && end.error.FieldInvalid?) || end.RenderInterrupted? || end.Other? ==>
              Counted(end) == None
  {
  }

  // Render routes are those under /v1/render/; a request that no route takes is
  // counted under one label of its own.
  lemma Routes(route: Option<string>)
    ensures StartsWith(RouteLabel(route), RENDER_PREFIX) <==>
            route.Some? && |route.value| >= 11 && route.value[..11] == "/v1/render/"
    ensures route.None? ==> RouteLabel(route) == "<unmatched>"
  {
    if route.None? { assert RouteLabel(route)[0] == '<' && RENDER_PREFIX[0] == '/'; }
  }

  // The template that a render uses: the role's directory and the file's name.
  lemma TemplateOf(i: HostIntent, kind: FileKind, engine: Engine, now: int)
    ensures var file := if kind == MetaData then "meta-data.j2" else if kind == UserData then "user-data.j2"
                        else "network-config.j2";
            EndOf(Ok(i), kind, engine, now) ==
            match engine(RoleName(i.role) + "/" + file, Canonical(i), now)
            case Rendered(body) => Body(i.role, body)
            case TemplateError => RenderFailed(i.role)
            case TemplateInterrupted => RenderInterrupted(i.role)
  {
    hide Canonical;
    FileKinds("");
    var role := RoleName(i.role);
    assert RoleValue(i.role) == role;
    assert role + "/" + "meta-data" + ".j2" == role + "/" + "meta-data.j2";
    assert role + "/" + "user-data" + ".j2" == role + "/" + "user-data.j2";
    assert role + "/" + "network-config" + ".j2" == role + "/" + "network-config.j2";
  }

  // What is served for a populated device is what the fixture's own intent
  // renders to, whatever order Netbox lists the interfaces in. For a fixture
  // that declares no valid host the same invariant is reported, with the same
  // status; only which bad record of a class is named may differ.
  lemma ServedIsTheFixtures(fixtures: seq<HostFixture>, fx: HostFixture, st: Store, ids: seq<Id>,
                            kind: FileKind, engine: Engine, now: int)
    requires Populated(fixtures, fx, st) && fx.assetTag in Fin(fixtures, st).base.devices.index
    requires Listing(ids, Fin(fixtures, st).base, Fin(fixtures, st).base.devices.index[fx.assetTag])
    ensures var end := EndOf(Load(Fin(fixtures, st), fx.assetTag, ids), kind, engine, now);
            var own := EndOf(DirectIntent(fx), kind, engine, now);
            && (end == own || (end.LoadFailed? && own.LoadFailed?
                               && OneClassFails(FixtureViews(fx), end.error, own.error)))
            && (CallOf(end) == Response(422) <==> CallOf(own) == Response(422))
  {
    hide Populated, Fin, Load, BuildIntent, FixtureViews, OneClassFails;
    LoadAfterPopulate(fixtures, fx, st, ids);
    PopulatedContextIsTheFixtures(fixtures, fx, st, ids);
    var load, own := Load(Fin(fixtures, st), fx.assetTag, ids), DirectIntent(fx);
    if load.Err? && own.Err? && load.error != own.error {
      RecordErrors(FixtureViews(fx), load.error, own.error);
    }
  }

  function RouteLabel(route: Option<string>): string { if route.Some? then route.value else UNMATCHED }

  function StatusLabel(call: CallResult): int { if call.Response? then call.status else 500 }

  // What leaves dispatch: a response, with cache headers or without, or an exception.
  datatype Dispatched = Returned(status: int, cached: bool) | Rethrown

  // dispatch runs up to its one suspension point, the call of the next handler,
  // and from there to its end; requests interleave between the two halves.
  class Middleware {
    var active: int
    var requests: multiset<Label>
    var durations: multiset<(string, string)>

    constructor ()
      ensures active == 0 && requests == multiset{} && durations == multiset{}
    {
      active, requests, durations := 0, multiset{}, multiset{};
    }

    method Begin()
      modifies this
      ensures active == old(active) + 1 && requests == old(requests) && durations == old(durations)
    {
      active := active + 1;
    }

    // headersRaise: writing the response headers fails
    method Finish(verb: string, path: string, route: Option<string>, call: CallResult, headersRaise: bool)
      returns (r: Dispatched)
      modifies this
      ensures active == old(active) - 1
      ensures requests == old(requests) + multiset{Label(verb, RouteLabel(route), StatusLabel(call))}
      ensures durations == old(durations) + multiset{(verb, RouteLabel(route))}
      ensures r.Returned? <==> call.Response? && !headersRaise
      ensures r.Returned? ==> r.status == call.status
      ensures r.Returned? ==> (r.cached <==> StartsWith(path, RENDER_PREFIX) && r.status == 200)
    {
      var statusCode := 500;
      match call {
        case Response(status) =>
          statusCode := status;
          r := if headersRaise then Rethrown else Returned(status, StartsWith(path, RENDER_PREFIX) && status == 200);
        case Raised => r := Rethrown;
        case Cancelled => r := Rethrown;
      }
      var template := RouteLabel(route);
      active := active - 1;
      requests := requests + multiset{Label(verb, template, statusCode)};
      durations := durations + multiset{(verb, template)};
    }
  }

  // ----- any number of requests ------------------------------------------------------------

  // A request inside dispatch: its handler has not run yet, or has ended.
  datatype Progress = Waiting(verb: string) | Handled(verb: string, route: Option<string>, end: HandlerEnd)

  // requests and renders list the counter increments in order.
  datatype Service = Service(inside: map<nat, Progress>, active: int, requests: seq<Label>, renders: seq<RenderLabel>)

  // Leave: the call ends as its handler did; Cancel: the request is cancelled
  // while suspended, before its handler runs or after.
  datatype Event =
    | Enter(id: nat, verb: string)
    | Handle(id: nat, route: Option<string>, end: HandlerEnd)
    | Leave(id: nat)
    | Cancel(id: nat)

  predicate IsRenderPath(path: string) { StartsWith(path, RENDER_PREFIX) }

  // The statuses a render handler's end is told by.
  predicate IsRenderStatus(status: int) { status == 200 || status == 404 || status == 422 || status == 502 }

  // Render handlers answer on render routes; there, the framework itself
  // answers only with other statuses, as a refused method.
  predicate Fits(route: Option<string>, end: HandlerEnd) {
    if end.Other? then !IsRenderPath(RouteLabel(route)) || !IsRenderStatus(end.status)
    else IsRenderPath(RouteLabel(route))
  }

  predicate Enabled(e: Event, s: Service) {
    match e
    case Enter(id, _) => id !in s.inside
    case Handle(id, route, end) =>
      && id in s.inside && s.inside[id].Waiting?
      && Fits(route, end)
    case Leave(id) => id in s.inside && s.inside[id].Handled?
    case Cancel(id) => id in s.inside
  }

  function RouteOf(p: Progress): Option<string> { if p.Handled? then p.route else None }

  function ExitLabel(p: Progress, call: CallResult): Label {
    Label(p.verb, RouteLabel(RouteOf(p)), StatusLabel(call))
  }

  function Next(e: Event, s: Service): Service
    requires Enabled(e, s)
  {
    match e
    case Enter(id, verb) => s.(inside := s.inside[id := Waiting(verb)], active := s.active + 1)
    case Handle(id, route, end) =>
      s.(inside := s.inside[id := Handled(s.inside[id].verb, route, end)],
         renders := if Counted(end).Some? then s.renders + [Counted(end).value] else s.renders)
    case Leave(id) =>
      s.(inside := s.inside - {id}, active := s.active - 1,
         requests := s.requests + [ExitLabel(s.inside[id], CallOf(s.inside[id].end))])
    case Cancel(id) =>
      s.(inside := s.inside - {id}, active := s.active - 1,
         requests := s.requests + [ExitLabel(s.inside[id], Cancelled)])
  }

  // The service after these events, in this order, if they can happen.
  function RunOf(events: seq<Event>): Option<Service> {
    if events == [] then Some(Service(map[], 0, [], []))
    else
      match RunOf(events[..|events| - 1])
      case None => None
      case Some(s) => if Enabled(events[|events| - 1], s) then Some(Next(events[|events| - 1], s)) else None
  }

  function Count<T>(p: T -> bool, s: seq<T>): nat {
    if s == [] then 0 else Count(p, s[..|s| - 1]) + if p(s[|s| - 1]) then 1 else 0
  }

  lemma CountSnoc<T>(p: T -> bool, s: seq<T>, x: T)
    ensures Count(p, s + [x]) == Count(p, s) + if p(x) then 1 else 0
  {
  }

  predicate IsEnter(e: Event) { e.Enter? }
  predicate IsExit(e: Event) { e.Leave? || e.Cancel? }
  predicate IsRender(e: Event) { e.Handle? && !e.end.Other? }
  predicate IsBody(e: Event) { e.Handle? && e.end.Body? }
  predicate Escapes(e: Event) {
    e.Handle? && ((e.end.LoadFailed? && e.end.error.FieldInvalid?) || e.end.RenderInterrupted?)
  }
  predicate IsSuccess(r: RenderLabel) { r.outcome == "success" }

  // In every reachable state the gauge is the number of requests inside, the
  // counter has one increment per exit, by return, exception or cancellation,
  // and no request is lost or counted twice.
  lemma {:induction false} InFlightAccounting(events: seq<Event>)
    requires RunOf(events).Some?
    ensures var s := RunOf(events).value;
            && s.active == |s.inside|
            && Count(IsEnter, events) == s.active + Count(IsExit, events)
            && |s.requests| == Count(IsExit, events)
  {
    hide RouteLabel, StatusLabel, CallOf, Counted, IsRenderPath;
    if events != [] {
      var init, e := events[..|events| - 1], events[|events| - 1];
      InFlightAccounting(init);
      var s := RunOf(init).value;
      if e.Enter? {
        assert Next(e, s).inside.Keys == s.inside.Keys + {e.id};
      } else if e.Handle? {
        assert Next(e, s).inside.Keys == s.inside.Keys;
      } else {
        assert Next(e, s).inside.Keys == s.inside.Keys - {e.id};
      }
    }
  }

  // On every run success counts the handlers that returned a body, each handler
  // adds at most one outcome, and the total falls short of the finished render
  // handlers by exactly those whose exception none of the handler's clauses names.
  lemma {:induction false} OutcomeAccounting(events: seq<Event>)
    requires RunOf(events).Some?
    ensures var s := RunOf(events).value;
            && Count(IsSuccess, s.renders) == Count(IsBody, events)
            && |s.renders| + Count(Escapes, events) == Count(IsRender, events)
  {
    hide RouteLabel, StatusLabel, CallOf, IsRenderPath, RoleValue;
    if events != [] {
      var init, e := events[..|events| - 1], events[|events| - 1];
      OutcomeAccounting(init);
      var s := RunOf(init).value;
      if e.Handle? && Counted(e.end).Some? {
        CountSnoc(IsSuccess, s.renders, Counted(e.end).value);
        OutcomeNames();
      }
    }
  }

  lemma OutcomeNames()
    ensures "success" != "netbox_error" && "success" != "validation_error" && "success" != "template_error"
    ensures "netbox_error" != "validation_error" && "netbox_error" != "template_error"
            && "validation_error" != "template_error"
  {
  }

  // ----- the two counters against each other --------------------------------------------------

  datatype Verdict = Success | NetboxError | ValidationError

  function OutcomeOf(v: Verdict): string {
    match v
    case Success => "success"
    case NetboxError => "netbox_error"
    case ValidationError => "validation_error"
  }

  predicate StatusShows(v: Verdict, status: int) {
    match v
    case Success => status == 200
    case NetboxError => status == 404 || status == 502
    case ValidationError => status == 422
  }

  predicate EndShows(v: Verdict, end: HandlerEnd) {
    Counted(end).Some? && Counted(end).value.outcome == OutcomeOf(v)
  }

  function RendersWith(v: Verdict, s: Service): nat { Count((r: RenderLabel) => r.outcome == OutcomeOf(v), s.renders) }

  function RequestsWith(v: Verdict, s: Service): nat {
    Count((l: Label) => IsRenderPath(l.path) && StatusShows(v, l.status), s.requests)
  }

  // Requests whose handler ended so and that are still inside dispatch.
  function Pending(v: Verdict, s: Service): set<nat> {
    set id | id in s.inside && s.inside[id].Handled? && EndShows(v, s.inside[id].end)
  }

  // Requests cancelled after their handler ended so.
  function LostToCancel(v: Verdict, events: seq<Event>): nat
    requires RunOf(events).Some?
  {
    if events == [] then 0
    else
      var init, e := events[..|events| - 1], events[|events| - 1];
      LostToCancel(v, init)
      + if e.Cancel? && e.id in Pending(v, RunOf(init).value) then 1 else 0
  }

  // A handled request's status is one of the verdict's exactly when its handler
  // counted the verdict's outcome.
  lemma StatusMatchesOutcome(v: Verdict, end: HandlerEnd)
    requires !end.Other?
    ensures StatusShows(v, StatusLabel(CallOf(end))) <==> EndShows(v, end)
  {
  }

  lemma OtherNeverCounts(v: Verdict, end: HandlerEnd)
    requires end.Other?
    ensures !EndShows(v, end)
    ensures StatusShows(v, StatusLabel(CallOf(end))) ==> IsRenderStatus(end.status)
  {
  }

  // Every handled request's end fits its route.
  ghost predicate RoutesAgree(s: Service) {
    forall id :: id in s.inside && s.inside[id].Handled? ==> Fits(s.inside[id].route, s.inside[id].end)
  }

  lemma {:induction false} RoutesAlwaysAgree(events: seq<Event>)
    requires RunOf(events).Some?
    ensures RoutesAgree(RunOf(events).value)
  {
    hide IsRenderPath, RouteLabel, Counted, ExitLabel, CallOf;
    if events != [] { RoutesAlwaysAgree(events[..|events| - 1]); }
  }

  lemma VerdictStep(v: Verdict, e: Event, s: Service)
    requires Enabled(e, s) && RoutesAgree(s)
    ensures var t := Next(e, s);
            RendersWith(v, t) + RequestsWith(v, s) + |Pending(v, s)| ==
            RendersWith(v, s) + RequestsWith(v, t) + |Pending(v, t)|
            + if e.Cancel? && e.id in Pending(v, s) then 1 else 0
  {
    hide EndShows, StatusShows, RoutesAgree, Counted, IsRenderPath, CallOf, RouteLabel, Count;
    match e
    case Enter(id, _) => assert Pending(v, Next(e, s)) == Pending(v, s);
    case Handle(_, _, _) => HandleStep(v, e, s);
    case Leave(_) => LeaveStep(v, e, s);
    case Cancel(_) => CancelStep(v, e, s);
  }

  lemma HandleStep(v: Verdict, e: Event, s: Service)
    requires Enabled(e, s) && e.Handle?
    ensures RendersWith(v, Next(e, s)) + |Pending(v, s)| == RendersWith(v, s) + |Pending(v, Next(e, s))|
  {
    hide Pending, RendersWith, Enabled, Next, EndShows;
    HandleCounts(v, e, s);
    HandlePends(v, e, s);
  }

  lemma HandleCounts(v: Verdict, e: Event, s: Service)
    requires Enabled(e, s) && e.Handle?
    ensures RendersWith(v, Next(e, s)) == RendersWith(v, s) + if EndShows(v, e.end) then 1 else 0
  {
  }

  lemma HandlePends(v: Verdict, e: Event, s: Service)
    requires Enabled(e, s) && e.Handle?
    ensures |Pending(v, Next(e, s))| == |Pending(v, s)| + if EndShows(v, e.end) then 1 else 0
  {
    hide IsRenderPath, RouteLabel, EndShows, Counted;
    assert e.id !in Pending(v, s);
    assert Pending(v, Next(e, s)) == if EndShows(v, e.end) then Pending(v, s) + {e.id} else Pending(v, s);
    hide Pending, Next;
  }

  lemma LeaveStep(v: Verdict, e: Event, s: Service)
    requires Enabled(e, s) && e.Leave? && RoutesAgree(s)
    ensures RequestsWith(v, s) + |Pending(v, s)| == RequestsWith(v, Next(e, s)) + |Pending(v, Next(e, s))|
  {
    hide EndShows, StatusShows, Counted, IsRenderPath, CallOf, RouteLabel, Count;
    var p := s.inside[e.id];
    CountSnoc((l: Label) => IsRenderPath(l.path) && StatusShows(v, l.status), s.requests, ExitLabel(p, CallOf(p.end)));
    if p.end.Other? { OtherNeverCounts(v, p.end); } else { StatusMatchesOutcome(v, p.end); }
    assert Pending(v, Next(e, s)) == Pending(v, s) - {e.id};
  }

  lemma CancelStep(v: Verdict, e: Event, s: Service)
    requires Enabled(e, s) && e.Cancel?
    ensures RequestsWith(v, s) == RequestsWith(v, Next(e, s))
    ensures |Pending(v, s)| == |Pending(v, Next(e, s))| + if e.id in Pending(v, s) then 1 else 0
  {
    hide EndShows, Counted, IsRenderPath, RouteLabel, Count;
    var p := s.inside[e.id];
    CountSnoc((l: Label) => IsRenderPath(l.path) && StatusShows(v, l.status), s.requests, ExitLabel(p, Cancelled));
    assert Pending(v, Next(e, s)) == Pending(v, s) - {e.id};
  }

  // In every reachable state, for each verdict the render counter exceeds the
  // request counter's matching statuses on render routes by the requests still
  // inside and those cancelled after their handler ended.
  lemma {:induction false} CountersAgree(events: seq<Event>, v: Verdict)
    requires RunOf(events).Some?
    ensures var s := RunOf(events).value;
            RendersWith(v, s) == RequestsWith(v, s) + |Pending(v, s)| + LostToCancel(v, events)
  {
    hide Next, Enabled, Pending, RendersWith, RequestsWith, RoutesAgree;
    if events == [] {
      NothingCounted(v);
    } else {
      var init := events[..|events| - 1];
      CountersAgree(init, v);
      RoutesAlwaysAgree(init);
      VerdictStep(v, events[|events| - 1], RunOf(init).value);
    }
  }

  lemma NothingCounted(v: Verdict)
    ensures var s := RunOf([]).value;
            RendersWith(v, s) == 0 && RequestsWith(v, s) == 0 && |Pending(v, s)| == 0
  {
  }

  // The event loop: whatever the interleaving, the middleware object's gauge
  // and counter are those of the run.
  method Serve(mw: Middleware, events: seq<Event>)
    requires RunOf(events).Some?
    requires mw.active == 0 && mw.requests == multiset{}
    modifies mw
    ensures mw.active == RunOf(events).value.active && mw.requests == multiset(RunOf(events).value.requests)
  {
    hide RunOf, Enabled, Next, CallOf, RouteOf, RouteLabel, StatusLabel;
    var s := Service(map[], 0, [], []);
    RunStarts(events);
    var k := 0;
    while k < |events|
      invariant 0 <= k <= |events|
      invariant RunOf(events[..k]) == Some(s)
      invariant mw.active == s.active && mw.requests == multiset(s.requests)
    {
      var e := events[k];
      RunsOn(events, k);
      Moves(e, s);
      match e {
        case Enter(_, _) => mw.Begin();
        case Handle(_, _, _) =>
        case Leave(id) =>
          var p := s.inside[id];
          var _ := mw.Finish(p.verb, RouteLabel(RouteOf(p)), RouteOf(p), CallOf(p.end), false);
        case Cancel(id) =>
          var p := s.inside[id];
          var _ := mw.Finish(p.verb, RouteLabel(RouteOf(p)), RouteOf(p), Cancelled, false);
      }
      s := Next(e, s);
      k := k + 1;
    }
    assert events[..|events|] == events;
  }

  lemma RunStarts(events: seq<Event>)
    ensures RunOf(events[..0]) == Some(Service(map[], 0, [], []))
  {
  }

  // What an event does to the middleware's own counters.
  lemma Moves(e: Event, s: Service)
    requires Enabled(e, s)
    ensures e.Enter? ==> Next(e, s).active == s.active + 1 && Next(e, s).requests == s.requests
    ensures e.Handle? ==> Next(e, s).active == s.active && Next(e, s).requests == s.requests
    ensures e.Leave? ==> e.id in s.inside && s.inside[e.id].Handled? && Next(e, s).active == s.active - 1
                         && Next(e, s).requests == s.requests + [ExitLabel(s.inside[e.id], CallOf(s.inside[e.id].end))]
    ensures e.Cancel? ==> e.id in s.inside && Next(e, s).active == s.active - 1
                          && Next(e, s).requests == s.requests + [ExitLabel(s.inside[e.id], Cancelled)]
  {
  }

  lemma {:induction false} RunsOn(events: seq<Event>, k: nat)
    requires RunOf(events).Some? && k < |events|
    ensures RunOf(events[..k]).Some? && Enabled(events[k], RunOf(events[..k]).value)
    ensures RunOf(events[..k + 1]) == Some(Next(events[k], RunOf(events[..k]).value))
    decreases |events|
  {
    hide Enabled, Next;
    var init := events[..|events| - 1];
    if k == |init| {
      assert events[..k + 1] == events;
    } else {
      RunsOn(init, k);
      assert init[..k] == events[..k] && init[..k + 1] == events[..k + 1];
    }
  }
}
