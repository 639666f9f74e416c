/** The network monitor as the consumer of the server's posted callbacks. */
module MonitorModel {
  import F = Frames
  import opened Wrappers
  import opened StompFrames
  import S = ServerModel
  import O = ServerOutcomes

  const QUIET_ROUTE: string := "/quiet-route"

  /** `delivered` callbacks of the server's queue have been handled. */
  datatype Monitor = Monitor(world: S.World, clients: set<S.ConnectionId>, delivered: nat)

  function Begin(host: string): Monitor {
    Monitor(S.Init(host), {}, 0)
  }

  /** Anything that happens to the server, or the delivery of the next callback.
      `readable` says whether a message's content can be parsed; the reply's
      request id, text and uninitialized length are given by the event. */
  datatype Event =
    | OnServer(event: S.Event)
    | Deliver(readable: bool, requestId: string, content: string, text: string, junk: nat)

  /** What handling a callback makes the server do, if anything. */
  datatype Reaction = Nothing | React(event: S.Event)

  function ReactionTo(c: S.Callback, readable: bool, requestId: string, content: string, text: string, junk: nat)
    : Reaction
  {
    if !c.OnClientMessage? then Nothing
    else if c.destination != QUIET_ROUTE || !readable then React(S.UserClose(c.id))
    else React(S.UserSend(c.id, requestId, QUIET_ROUTE, content, text, junk))
  }

  function ClientsAfter(clients: set<S.ConnectionId>, c: S.Callback, readable: bool): set<S.ConnectionId> {
    match c
    case OnClientConnect(id) => clients + {id}
    case OnClientMessage(id, destination, _, _) =>
      if destination != QUIET_ROUTE || !readable then clients - {id} else clients
    case OnClientDisconnect(id, _) => clients - {id}
    case OnDisconnect(_) => clients
  }

  ghost predicate Allowed(m: Monitor, ev: Event) {
    match ev
    case OnServer(e) => S.Allowed(m.world, e)
    case Deliver(readable, requestId, content, text, junk) =>
      && m.delivered < |m.world.server.posted|
      && var r := ReactionTo(m.world.server.posted[m.delivered], readable, requestId, content, text, junk);
         (r.React? ==> S.Allowed(m.world, r.event))
  }

  function Next(m: Monitor, ev: Event): Monitor
    requires ev.Deliver? ==> m.delivered < |m.world.server.posted|
  {
    match ev
    case OnServer(e) => m.(world := S.Next(m.world, e))
    case Deliver(readable, requestId, content, text, junk) =>
      var c := m.world.server.posted[m.delivered];
      var r := ReactionTo(c, readable, requestId, content, text, junk);
      Monitor(if r.React? then S.Next(m.world, r.event) else m.world,
              ClientsAfter(m.clients, c, readable),
              m.delivered + 1)
  }

  ghost predicate Run(m: Monitor, events: seq<Event>)
    decreases |events|
  {
    events == [] || (Allowed(m, events[0]) && Run(Next(m, events[0]), events[1..]))
  }

  ghost function After(m: Monitor, events: seq<Event>): Monitor
    requires Run(m, events)
    decreases |events|
  {
    if events == [] then m else After(Next(m, events[0]), events[1..])
  }

  // ----- Coverage -----

  /** A callback of the id is still waiting in the queue. */
  ghost predicate Queued(m: Monitor, c: S.Callback)
    requires m.delivered <= |m.world.server.posted|
  {
    c in m.world.server.posted[m.delivered..]
  }

  ghost predicate Covers(m: Monitor, id: S.ConnectionId)
    requires m.delivered <= |m.world.server.posted|
  {
    S.Phase(m.world, id) == 2 ==> id in m.clients || Queued(m, S.OnClientConnect(id))
  }

  /** No disconnect of a listed id has been delivered yet. */
  ghost predicate NotDisconnected(m: Monitor, id: S.ConnectionId)
    requires m.delivered <= |m.world.server.posted|
  {
    id in m.clients ==>
      forall c :: c in m.world.server.posted[..m.delivered] && S.About(c, id) ==> !c.OnClientDisconnect?
  }

  ghost predicate Inv(m: Monitor) {
    && S.Inv(m.world) && m.delivered <= |m.world.server.posted|
    && forall id {:trigger Covers(m, id)} {:trigger NotDisconnected(m, id)} :: Covers(m, id) && NotDisconnected(m, id)
  }

  lemma {:induction false} ProjectHas(posted: seq<S.Callback>, c: S.Callback, id: S.ConnectionId)
    ensures c in S.Project(posted, id) <==> c in posted && S.About(c, id)
  {
    if posted != [] {
      ProjectHas(posted[..|posted| - 1], c, id);
      assert posted == posted[..|posted| - 1] + [posted[|posted| - 1]];
    }
  }

  /** The queue only grows. */
  lemma PostedGrows(w: S.World, e: S.Event)
    ensures w.server.posted <= S.Next(w, e).server.posted
  {
    hide F.Parse, Check, S.Project, HeaderValue;
  }

  /** A connected id has its connect callback, and no disconnect, in the queue. */
  lemma ConnectedWasPosted(w: S.World, id: S.ConnectionId)
    requires S.Inv(w) && S.Phase(w, id) == 2
    ensures S.OnClientConnect(id) in w.server.posted
    ensures forall c :: c in w.server.posted && S.About(c, id) ==> !c.OnClientDisconnect?
  {
    hide S.Project;
    assert S.LogOk(w.server.connections, w.server.sessions, w.server.posted, id);
    var p := S.Project(w.server.posted, id);
    ProjectHas(w.server.posted, p[0], id);
    assert p[0] in p;
    forall c | c in w.server.posted && S.About(c, id) ensures !c.OnClientDisconnect? {
      ProjectHas(w.server.posted, c, id);
      var i :| 0 <= i < |p| && p[i] == c;
    }
  }

  lemma UnconnectedNotPosted(w: S.World, id: S.ConnectionId)
    requires S.Inv(w) && S.Phase(w, id) <= 1
    ensures forall c :: c in w.server.posted ==> !S.About(c, id)
  {
    hide S.Project;
    assert S.LogOk(w.server.connections, w.server.sessions, w.server.posted, id);
    forall c | c in w.server.posted ensures !S.About(c, id) {
      ProjectHas(w.server.posted, c, id);
      assert id !in w.used ==> S.Project(w.server.posted, id) == [];
    }
  }

  /** A step of the server keeps the coverage: a new connection is covered by
      the callback just posted. */
  lemma ServerKeeps(m: Monitor, e: S.Event)
    requires Inv(m) && S.Allowed(m.world, e)
    ensures Inv(m.(world := S.Next(m.world, e)))
  {
    hide S.Next, S.Inv, S.Allowed, S.Phase, S.About;
    var n := m.(world := S.Next(m.world, e));
    S.NextKeeps(m.world, e);
    PostedGrows(m.world, e);
    var before, after := m.world.server.posted, n.world.server.posted;
    assert after[..m.delivered] == before[..m.delivered];
    assert before[m.delivered..] <= after[m.delivered..];
    forall id ensures Covers(n, id) && NotDisconnected(n, id) {
      assert Covers(m, id) && NotDisconnected(m, id);
      if S.Phase(n.world, id) == 2 {
        S.PhaseNeverFalls(m.world, e, id);
        ConnectedWasPosted(n.world, id);
        if S.Phase(m.world, id) != 2 {
          NewlyPosted(m, n, id);
        }
      }
    }
  }

  lemma NewlyPosted(m: Monitor, n: Monitor, id: S.ConnectionId)
    requires S.Inv(m.world) && S.Phase(m.world, id) <= 1 && m.delivered == n.delivered <= |m.world.server.posted|
    requires m.world.server.posted <= n.world.server.posted
    requires S.OnClientConnect(id) in n.world.server.posted
    ensures Queued(n, S.OnClientConnect(id))
  {
    hide S.Inv, S.Phase;
    UnconnectedNotPosted(m.world, id);
    var before, after := m.world.server.posted, n.world.server.posted;
    var i :| 0 <= i < |after| && after[i] == S.OnClientConnect(id);
    assert forall k :: 0 <= k < |before| ==> before[k] in before && !S.About(before[k], id);
    assert after[m.delivered..][i - m.delivered] == after[i];
  }

  /** Handling the next callback, before the server reacts to it. */
  lemma HandlingKeeps(m: Monitor, readable: bool)
    requires Inv(m) && m.delivered < |m.world.server.posted|
    requires var c := m.world.server.posted[m.delivered];
             c.OnClientMessage? && (c.destination != QUIET_ROUTE || !readable) ==> S.Phase(m.world, c.id) != 2
    ensures var c := m.world.server.posted[m.delivered];
            Inv(m.(clients := ClientsAfter(m.clients, c, readable), delivered := m.delivered + 1))
  {
    hide S.Inv, S.Phase;
    var posted := m.world.server.posted;
    var c := posted[m.delivered];
    var n := m.(clients := ClientsAfter(m.clients, c, readable), delivered := m.delivered + 1);
    assert posted[..m.delivered + 1] == posted[..m.delivered] + [c];
    assert posted[m.delivered..] == [c] + posted[m.delivered + 1..];
    forall id ensures Covers(n, id) && NotDisconnected(n, id) {
      assert Covers(m, id) && NotDisconnected(m, id);
      if S.Phase(m.world, id) == 2 {
        ConnectedWasPosted(m.world, id);
        assert c in posted;
      }
      if c == S.OnClientConnect(id) {
        FirstOfItsId(m.world, m.delivered, id);
      }
    }
  }

  /** Nothing about an id comes before its connect callback. */
  lemma FirstOfItsId(w: S.World, k: nat, id: S.ConnectionId)
    requires S.Inv(w) && k < |w.server.posted| && w.server.posted[k] == S.OnClientConnect(id)
    ensures forall c :: c in w.server.posted[..k] ==> !S.About(c, id)
  {
    hide S.Project;
    var posted := w.server.posted;
    assert S.LogOk(w.server.connections, w.server.sessions, posted, id);
    var p, q := S.Project(posted, id), S.Project(posted[..k + 1], id);
    S.ProjectPrefix(posted, k + 1, id);
    assert posted[..k + 1] == posted[..k] + [posted[k]];
    S.ProjectPost(posted[..k], posted[k], id);
    assert q == S.Project(posted[..k], id) + [posted[k]];
    S.SentencePrefix(p, |q|);
    assert p[..|q|] == q && S.Sentence(q);
    assert q[|q| - 1] == posted[k];
    assert |q| == 1;
    forall c | c in posted[..k] ensures !S.About(c, id) {
      ProjectHas(posted[..k], c, id);
    }
  }

  lemma NextKeeps(m: Monitor, ev: Event)
    requires Inv(m) && Allowed(m, ev)
    ensures Inv(Next(m, ev))
  {
    hide S.Next, S.Allowed, Inv, S.Phase;
    match ev
    case OnServer(e) => ServerKeeps(m, e);
    case Deliver(readable, requestId, content, text, junk) =>
      var c := m.world.server.posted[m.delivered];
      var r := ReactionTo(c, readable, requestId, content, text, junk);
      if r.React? {
        ServerKeeps(m, r.event);
        PostedGrows(m.world, r.event);
        CloseEnds(m, r.event);
        HandlingKeeps(m.(world := S.Next(m.world, r.event)), readable);
      } else {
        HandlingKeeps(m, readable);
      }
  }

  lemma CloseEnds(m: Monitor, e: S.Event)
    requires Inv(m)
    ensures e.UserClose? ==> S.Phase(S.Next(m.world, e), e.id) != 2
  {
    hide S.LogOk, S.Project, Covers, NotDisconnected;
  }

  lemma BeginInv(host: string)
    ensures Inv(Begin(host))
  {
    S.InitInv(host);
  }

  lemma {:induction false} RunKeeps(m: Monitor, events: seq<Event>)
    requires Inv(m) && Run(m, events)
    ensures Inv(After(m, events))
    decreases |events|
  {
    hide Inv, Next;
    if events != [] {
      NextKeeps(m, events[0]);
      RunKeeps(Next(m, events[0]), events[1..]);
    }
  }

  /** In every run, whatever the interleaving, every id the server holds as
      connected is in the monitor's list or has its connect callback queued. */
  lemma MonitorCoverage(host: string, events: seq<Event>, id: S.ConnectionId)
    requires Run(Begin(host), events)
    ensures var m := After(Begin(host), events);
            && m.delivered <= |m.world.server.posted|
            && (S.Phase(m.world, id) == 2 ==> id in m.clients || Queued(m, S.OnClientConnect(id)))
  {
    hide S.Inv, S.Phase, Run, After;
    BeginInv(host);
    RunKeeps(Begin(host), events);
    assert Covers(After(Begin(host), events), id);
  }

  /** An id lingers in the list only if its disconnect callback is still queued,
      or was never posted because the server closed the connection itself. */
  lemma LingeringIds(host: string, events: seq<Event>, id: S.ConnectionId)
    requires Run(Begin(host), events)
    ensures var m := After(Begin(host), events);
            id in m.clients && S.Phase(m.world, id) != 2 ==>
              forall c :: c in m.world.server.posted && S.About(c, id) && c.OnClientDisconnect? ==>
                            m.delivered <= |m.world.server.posted| && Queued(m, c)
  {
    hide S.Inv, S.Phase, Run, After, S.About;
    BeginInv(host);
    RunKeeps(Begin(host), events);
    var m := After(Begin(host), events);
    assert NotDisconnected(m, id);
    var posted := m.world.server.posted;
    assert posted == posted[..m.delivered] + posted[m.delivered..];
  }

  // ----- What handling a callback comes to -----

  /** A session's items grow by these, if it is the one of that connection. */
  ghost predicate OnlyAsked(before: S.ServerState, after: S.ServerState, id: S.ConnectionId, items: seq<S.WireItem>) {
    forall ws :: S.WireOf(after, ws) == S.WireOf(before, ws) +
      if ws in before.connections && before.connections[ws].id == id then items else []
  }

  /** A readable request for a quiet route is answered to the client that asked,
      if it is still connected, and changes nothing else; any other message has
      its connection closed and its id taken off the list. */
  lemma MessageHandledExactly(m: Monitor, ev: Event)
    requires Inv(m) && Allowed(m, ev) && ev.Deliver? && m.world.server.posted[m.delivered].OnClientMessage?
    ensures var c, n := m.world.server.posted[m.delivered], Next(m, ev);
            var before, after := m.world.server, n.world.server;
            if c.destination == "/quiet-route" && ev.readable then
              && n.clients == m.clients && after == before.(wire := after.wire)
              && OnlyAsked(before, after, c.id,
                           if S.Phase(m.world, c.id) == 2 && Check(ev.text, ev.junk) == Returned(F.Ok)
                           then [S.Text(ev.text)] else [])
            else
              && n.clients == m.clients - {c.id} && S.Phase(n.world, c.id) != 2
              && OnlyAsked(before, after, c.id, [S.CloseRequest])
              && after.posted == before.posted
              && forall ws :: O.ConnectionOf(after, ws) ==
                   if ws in before.connections && before.connections[ws].id == c.id then None
                   else O.ConnectionOf(before, ws)
  {
    hide F.Parse, Check, S.Project, S.LogOk, S.Built, S.SingleLine, Covers, NotDisconnected;
    var c := m.world.server.posted[m.delivered];
    var r := ReactionTo(c, ev.readable, ev.requestId, ev.content, ev.text, ev.junk);
    CloseEnds(m, r.event);
  }

  /** The other callbacks only change the list. */
  lemma OthersHandledExactly(m: Monitor, ev: Event)
    requires Inv(m) && Allowed(m, ev) && ev.Deliver? && !m.world.server.posted[m.delivered].OnClientMessage?
    ensures var c, n := m.world.server.posted[m.delivered], Next(m, ev);
            && n.world == m.world
            && n.clients == match c
                            case OnClientConnect(id) => m.clients + {id}
                            case OnClientDisconnect(id, _) => m.clients - {id}
                            case _ => m.clients
  {
    hide S.Inv, S.Next;
  }

  // ----- Which closes leave an id behind -----

  /** Whether an id is listed after one more callback, a message being answered. */
  function Listing(listed: bool, c: S.Callback, id: S.ConnectionId): bool {
    match c
    case OnClientConnect(i) => listed || i == id
    case OnClientDisconnect(i, _) => listed && i != id
    case _ => listed
  }

  function ListedAfter(listed: bool, queue: seq<S.Callback>, id: S.ConnectionId): bool {
    if queue == [] then listed
    else Listing(ListedAfter(listed, queue[..|queue| - 1], id), queue[|queue| - 1], id)
  }

  /** Whether the id will be listed once the queue as it is has been handled. */
  function Fate(m: Monitor, id: S.ConnectionId): bool
    requires m.delivered <= |m.world.server.posted|
  {
    ListedAfter(id in m.clients, m.world.server.posted[m.delivered..], id)
  }

  /** The monitor turns away a message of the id. */
  ghost predicate TurnsAway(m: Monitor, ev: Event, id: S.ConnectionId)
    requires Allowed(m, ev)
  {
    ev.Deliver? &&
    var c := m.world.server.posted[m.delivered];
    c.OnClientMessage? && c.id == id && (c.destination != QUIET_ROUTE || !ev.readable)
  }

  ghost predicate TurnsNoneAway(m: Monitor, events: seq<Event>, id: S.ConnectionId)
    requires Run(m, events)
    decreases |events|
  {
    events == [] || (!TurnsAway(m, events[0], id) && TurnsNoneAway(Next(m, events[0]), events[1..], id))
  }

  lemma ListedSnoc(listed: bool, queue: seq<S.Callback>, c: S.Callback, id: S.ConnectionId)
    ensures ListedAfter(listed, queue + [c], id) == Listing(ListedAfter(listed, queue, id), c, id)
  {
    assert (queue + [c])[..|queue|] == queue;
  }

  lemma {:induction false} ListedCons(listed: bool, c: S.Callback, queue: seq<S.Callback>, id: S.ConnectionId)
    ensures ListedAfter(listed, [c] + queue, id) == ListedAfter(Listing(listed, c, id), queue, id)
    decreases |queue|
  {
    if queue == [] {
      ListedSnoc(listed, [], c, id);
      assert [] + [c] == [c] + queue;
    } else {
      var n := |queue| - 1;
      ListedCons(listed, c, queue[..n], id);
      ListedSnoc(listed, [c] + queue[..n], queue[n], id);
      assert [c] + queue == [c] + queue[..n] + [queue[n]];
    }
  }

  lemma {:induction false} ListedWithoutDisconnect(listed: bool, queue: seq<S.Callback>, id: S.ConnectionId)
    requires listed || S.OnClientConnect(id) in queue
    requires forall c :: c in queue && S.About(c, id) ==> !c.OnClientDisconnect?
    ensures ListedAfter(listed, queue, id)
  {
    if queue != [] {
      var n := |queue| - 1;
      assert queue == queue[..n] + [queue[n]];
      if listed || S.OnClientConnect(id) in queue[..n] {
        ListedWithoutDisconnect(listed, queue[..n], id);
      }
    }
  }

  lemma {:induction false} ListedUnmentioned(listed: bool, queue: seq<S.Callback>, id: S.ConnectionId)
    requires forall c :: c in queue ==> !S.About(c, id)
    ensures ListedAfter(listed, queue, id) == listed
  {
    if queue != [] {
      var n := |queue| - 1;
      assert queue == queue[..n] + [queue[n]] && queue[n] in queue;
      ListedUnmentioned(listed, queue[..n], id);
    }
  }

  /** A step of the server after which a connected client is gone posts its
      disconnect exactly if the transport reported it. */
  lemma ClosingStep(w: S.World, e: S.Event, id: S.ConnectionId)
    requires S.Inv(w) && S.Allowed(w, e) && S.Phase(w, id) == 2 && S.Phase(S.Next(w, e), id) == 3
    ensures var before, after := w.server.posted, S.Next(w, e).server.posted;
            if e.WsDisconnect? then after == before + [S.OnClientDisconnect(id, !e.error)]
            else after == before || exists c :: after == before + [c] && !c.OnClientDisconnect?
  {
    hide Check, S.Project, S.LogOk, S.Built, S.SingleLine, S.OnWsSessionMessage, S.Send, S.Close;
    if e.WsMessage? {
      S.MessagePosts(w.server, e.error, e.ws, e.msg, e.texts, e.junk);
    }
    if e.UserSend? || e.UserClose? {
      CommandsPostNothing(w.server, e);
    }
  }

  lemma CommandsPostNothing(st: S.ServerState, e: S.Event)
    requires e.UserSend? || e.UserClose?
    ensures S.Apply(st, e).posted == st.posted
  {
    hide Check;
  }

  lemma FateAfterClosing(m: Monitor, e: S.Event, id: S.ConnectionId)
    requires Inv(m) && S.Allowed(m.world, e) && S.Phase(m.world, id) == 2 && S.Phase(S.Next(m.world, e), id) == 3
    ensures Inv(Next(m, OnServer(e))) && Fate(Next(m, OnServer(e)), id) == !e.WsDisconnect?
  {
    hide S.Next, S.Inv, S.Phase, S.Allowed;
    ServerKeeps(m, e);
    ClosingStep(m.world, e, id);
    ConnectedWasPosted(m.world, id);
    assert Covers(m, id);
    var before, after := m.world.server.posted, S.Next(m.world, e).server.posted;
    var queue := before[m.delivered..];
    ListedWithoutDisconnect(id in m.clients, queue, id);
    if after != before {
      var c :| after == before + [c];
      assert after[m.delivered..] == queue + [c];
      ListedSnoc(id in m.clients, queue, c, id);
    }
  }

  lemma FateOnServerStep(m: Monitor, e: S.Event, id: S.ConnectionId)
    requires Inv(m) && S.Allowed(m.world, e) && S.Phase(m.world, id) == 3
    ensures S.Phase(S.Next(m.world, e), id) == 3
    ensures m.delivered <= |S.Next(m.world, e).server.posted|
    ensures Fate(m.(world := S.Next(m.world, e)), id) == Fate(m, id)
  {
    hide S.Phase, S.Allowed, S.Apply, S.Project, S.Inv;
    S.PhaseNeverFalls(m.world, e, id);
    PhaseAtMostGone(S.Next(m.world, e), id);
    S.GoneIsSilent(m.world, e, id);
    S.PostsForItsSession(m.world.server, e);
    var before, after := m.world.server.posted, S.Next(m.world, e).server.posted;
    if after != before {
      var c :| after == before + [c];
      S.ProjectPost(before, c, id);
      var queue := before[m.delivered..];
      assert after[m.delivered..] == queue + [c];
      ListedSnoc(id in m.clients, queue, c, id);
    }
  }

  lemma PhaseAtMostGone(w: S.World, id: S.ConnectionId)
    ensures S.Phase(w, id) <= 3
  {
  }

  lemma FateKept(m: Monitor, ev: Event, id: S.ConnectionId)
    requires Inv(m) && Allowed(m, ev) && S.Phase(m.world, id) == 3 && !TurnsAway(m, ev, id)
    ensures Inv(Next(m, ev)) && S.Phase(Next(m, ev).world, id) == 3 && Fate(Next(m, ev), id) == Fate(m, id)
  {
    hide S.Next, S.Allowed, S.Inv, S.Phase, Covers, NotDisconnected;
    NextKeeps(m, ev);
    match ev
    case OnServer(e) => FateOnServerStep(m, e, id);
    case Deliver(readable, requestId, content, text, junk) =>
      var c := m.world.server.posted[m.delivered];
      var r := ReactionTo(c, readable, requestId, content, text, junk);
      var w := if r.React? then S.Next(m.world, r.event) else m.world;
      if r.React? {
        FateOnServerStep(m, r.event, id);
        PostedGrows(m.world, r.event);
      }
      assert w.server.posted[m.delivered..] == [c] + w.server.posted[m.delivered + 1..];
      ListedCons(id in m.clients, c, w.server.posted[m.delivered + 1..], id);
  }

  lemma {:induction false} FateOfRun(m: Monitor, events: seq<Event>, id: S.ConnectionId)
    requires Inv(m) && S.Phase(m.world, id) == 3 && Run(m, events) && TurnsNoneAway(m, events, id)
    ensures Inv(After(m, events)) && Fate(After(m, events), id) == Fate(m, id)
    decreases |events|
  {
    hide Inv, S.Allowed, S.Next, S.Phase, Fate, TurnsAway;
    if events != [] {
      FateKept(m, events[0], id);
      FateOfRun(Next(m, events[0]), events[1..], id);
    }
  }

  /** Exactly the closes that the transport did not report leave the id of a
      connected client behind: once all callbacks about it have been handled,
      and none of its messages was turned away meanwhile, it is still listed if
      and only if it was closed by the server itself. */
  lemma ServerClosesLinger(host: string, past: seq<Event>, e: S.Event, events: seq<Event>, id: S.ConnectionId)
    requires Run(Begin(host), past)
    requires var m := After(Begin(host), past);
             && S.Allowed(m.world, e) && S.Phase(m.world, id) == 2 && S.Phase(S.Next(m.world, e), id) == 3
             && Run(Next(m, OnServer(e)), events) && TurnsNoneAway(Next(m, OnServer(e)), events, id)
             && var n := After(Next(m, OnServer(e)), events);
                forall i :: n.delivered <= i < |n.world.server.posted| ==> !S.About(n.world.server.posted[i], id)
    ensures id in After(Next(After(Begin(host), past), OnServer(e)), events).clients <==> !e.WsDisconnect?
  {
    hide S.Inv, S.Phase, S.Next, S.Allowed, Run, After, TurnsNoneAway, Covers, NotDisconnected;
    BeginInv(host);
    RunKeeps(Begin(host), past);
    var m := After(Begin(host), past);
    FateAfterClosing(m, e, id);
    FateOfRun(Next(m, OnServer(e)), events, id);
    var n := After(Next(m, OnServer(e)), events);
    ListedUnmentioned(id in n.clients, n.world.server.posted[n.delivered..], id);
  }
}
