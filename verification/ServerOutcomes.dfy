/** What one step of the server comes to, whatever handlers it goes through: the
    callbacks it posts, what it asks of every session, and the connection every
    session is left with. And which event has caused a callback, in every run. */
module ServerOutcomes {
  import opened Wrappers
  import F = Frames
  import opened StompFrames
  import opened ServerModel

  /** A valid STOMP frame of the right version, for this host. */
  ghost predicate Greets(host: string, msg: string, junk: nat) {
    && Check(msg, junk) == Returned(F.Ok) && F.Parse(msg).Parsed?
    && var p := F.Parse(msg).value;
       && p.command == F.Stomp
       && F.AcceptVersion in p.headers && p.headers[F.AcceptVersion] == "1.2"
       && F.Host in p.headers && p.headers[F.Host] == host
  }

  /** A valid SEND frame with these parts; a frame without an id has the empty one. */
  ghost predicate Tells(msg: string, junk: nat, destination: string, requestId: string, content: string) {
    && Check(msg, junk) == Returned(F.Ok) && F.Parse(msg).Parsed?
    && var p := F.Parse(msg).value;
       && p.command == F.Send && p.body == content
       && F.Destination in p.headers && p.headers[F.Destination] == destination
       && (if F.Id in p.headers then p.headers[F.Id] == requestId else requestId == "")
  }

  ghost predicate IsMessage(msg: string, junk: nat) {
    exists destination, requestId, content :: Tells(msg, junk, destination, requestId, content)
  }

  ghost predicate HasStatus(st: ServerState, ws: Session, status: ConnectionStatus) {
    ws in st.connections && st.connections[ws].status == status
  }

  /** The event posts the callback. */
  ghost predicate Causes(st: ServerState, ev: Event, c: Callback) {
    match c
    case OnClientConnect(id) =>
      && ev.WsMessage? && !ev.error && HasStatus(st, ev.ws, Pending) && st.connections[ev.ws].id == id
      && Greets(st.host, ev.msg, ev.junk)
    case OnClientMessage(id, destination, requestId, content) =>
      && ev.WsMessage? && !ev.error && HasStatus(st, ev.ws, Connected) && st.connections[ev.ws].id == id
      && Tells(ev.msg, ev.junk, destination, requestId, content)
    case OnClientDisconnect(id, clean) =>
      && ev.WsDisconnect? && HasStatus(st, ev.ws, Connected) && st.connections[ev.ws].id == id
      && clean == !ev.error
    case OnDisconnect(clean) => ev.WsServerDown? && clean == !ev.error
  }

  /** What a known session is answered to a text. */
  ghost function Reply(st: ServerState, ws: Session, msg: string, texts: FrameTexts, junk: nat): seq<WireItem>
    requires ws in st.connections
  {
    var status := st.connections[ws].status;
    if F.Parse(msg).Thrown? then []
    else if status == Pending && Greets(st.host, msg, junk) then [Text(texts.connected)]
    else if status == Connected && IsMessage(msg, junk) then []
    else if IsMessage(msg, junk) then [CloseRequest]
    else [Text(texts.error), CloseRequest]
  }

  /** What the event makes the server ask of a session. */
  ghost function Asks(st: ServerState, ev: Event, ws: Session): seq<WireItem> {
    match ev
    case WsConnect(error, from, _) => if error && from == ws then [CloseRequest] else []
    case WsMessage(error, from, msg, texts, junk) =>
      if from != ws then [] else if ws !in st.connections then [CloseRequest]
      else if error then [] else Reply(st, ws, msg, texts, junk)
    case UserSend(id, _, _, _, text, junk) =>
      if HasStatus(st, ws, Connected) && st.connections[ws].id == id && Check(text, junk) == Returned(F.Ok)
      then [Text(text)] else []
    case UserClose(id) => if ws in st.connections && st.connections[ws].id == id then [CloseRequest] else []
    case UserStop => if ws in st.connections then [CloseRequest] else []
    case _ => []
  }

  ghost function ConnectionOf(st: ServerState, ws: Session): Option<Connection> {
    if ws in st.connections then Some(st.connections[ws]) else None
  }

  /** The connection a session has after the event. */
  ghost function ConnectionAfter(st: ServerState, ev: Event, ws: Session): Option<Connection> {
    var before := ConnectionOf(st, ws);
    match ev
    case WsConnect(error, from, newId) => if from == ws && !error then Some(Connection(newId, Pending)) else before
    case WsMessage(error, from, msg, texts, junk) =>
      if from != ws || before.None? || error || F.Parse(msg).Thrown? then before
      else if before.value.status == Pending then
        if Greets(st.host, msg, junk) then Some(Connection(before.value.id, Connected)) else None
      else if IsMessage(msg, junk) then before else None
    case WsDisconnect(_, from) => if from == ws then None else before
    case UserClose(id) => if before.Some? && before.value.id == id then None else before
    case UserStop => None
    case _ => before
  }

  /** Exactly the callbacks that the event causes, at most one, are posted. */
  ghost predicate PostsCaused(st: ServerState, ev: Event, posted: seq<Callback>) {
    exists added ::
      posted == st.posted + added && |added| <= 1 && forall c :: c in added <==> Causes(st, ev, c)
  }

  ghost predicate StepExactly(st: ServerState, ev: Event, after: ServerState) {
    && PostsCaused(st, ev, after.posted)
    && (forall ws :: WireOf(after, ws) == WireOf(st, ws) + Asks(st, ev, ws))
    && (forall ws :: ConnectionOf(after, ws) == ConnectionAfter(st, ev, ws))
  }

  // ----- Every step -----

  /** Which texts greet, tell, or neither. */
  lemma Kinds(host: string, msg: string, junk: nat)
    ensures Greets(host, msg, junk) <==>
      && Check(msg, junk) == Returned(F.Ok) && F.Parse(msg).Parsed? && F.Parse(msg).value.command == F.Stomp
      && HeaderValue(F.Parse(msg).value.headers, F.AcceptVersion) == VERSION
      && HeaderValue(F.Parse(msg).value.headers, F.Host) == host
    ensures IsMessage(msg, junk) <==>
      Check(msg, junk) == Returned(F.Ok) && F.Parse(msg).Parsed? && F.Parse(msg).value.command == F.Send
    ensures IsMessage(msg, junk) ==>
      var p := F.Parse(msg).value;
      forall d, r, c :: Tells(msg, junk, d, r, c) <==>
        d == HeaderValue(p.headers, F.Destination) && r == HeaderValue(p.headers, F.Id) && c == p.body
    ensures forall d, r, c :: Tells(msg, junk, d, r, c) ==> IsMessage(msg, junk)
    ensures F.Parse(msg).Thrown? <==> Check(msg, junk) == Threw
  {
    hide F.Parse;
    if Check(msg, junk) == Returned(F.Ok) && F.Parse(msg).Parsed? {
      var p := F.Parse(msg).value;
      assert F.RequiredHeaders(p.command) <= p.headers.Keys;
      if p.command == F.Send {
        assert Tells(msg, junk, HeaderValue(p.headers, F.Destination), HeaderValue(p.headers, F.Id), p.body);
      }
    }
  }

  lemma HeardAsks(w: World, ws: Session, msg: string, texts: FrameTexts, junk: nat)
    requires Inv(w) && Allowed(w, WsMessage(false, ws, msg, texts, junk)) && ws in w.server.connections
    ensures var ev := WsMessage(false, ws, msg, texts, junk);
            && (forall s :: WireOf(Next(w, ev).server, s) == WireOf(w.server, s) + Asks(w.server, ev, s))
            && (forall s :: ConnectionOf(Next(w, ev).server, s) == ConnectionAfter(w.server, ev, s))
  {
    hide F.Parse, Check, Greets, Tells, IsMessage, HeaderValue, Project, Built, SingleLine, LogOk, VERSION;
    var st := w.server;
    Kinds(st.host, msg, junk);
    SafeSession(st.connections, st.sessions, st.posted, w.seen, w.used, ws);
    ConnectedFrameOk(texts.connected, st.connections[ws].id, junk);
  }

  lemma HeardPosts(w: World, ws: Session, msg: string, texts: FrameTexts, junk: nat)
    requires Inv(w) && Allowed(w, WsMessage(false, ws, msg, texts, junk)) && ws in w.server.connections
    ensures var ev := WsMessage(false, ws, msg, texts, junk);
            PostsCaused(w.server, ev, Next(w, ev).server.posted)
  {
    hide F.Parse, Check, Greets, Tells, IsMessage, HeaderValue, Project, Built, SingleLine, LogOk, VERSION, PostsCaused;
    var st, ev := w.server, WsMessage(false, ws, msg, texts, junk);
    var posted := Next(w, ev).server.posted;
    var id, status := st.connections[ws].id, st.connections[ws].status;
    Kinds(st.host, msg, junk);
    SafeSession(st.connections, st.sessions, st.posted, w.seen, w.used, ws);
    ConnectedFrameOk(texts.connected, id, junk);
    if status == Pending && Greets(st.host, msg, junk) {
      PostsOne(st, ev, posted, OnClientConnect(id));
    } else if status == Connected && IsMessage(msg, junk) {
      var p := F.Parse(msg).value;
      PostsOne(st, ev, posted,
        OnClientMessage(id, HeaderValue(p.headers, F.Destination), HeaderValue(p.headers, F.Id), p.body));
    } else {
      PostsNone(st, ev, posted);
    }
  }

  lemma PostsOne(st: ServerState, ev: Event, posted: seq<Callback>, c: Callback)
    requires posted == st.posted + [c] && forall d :: Causes(st, ev, d) <==> d == c
    ensures PostsCaused(st, ev, posted)
  {
    hide Causes;
    assert forall d :: d in [c] <==> d == c;
  }

  lemma PostsNone(st: ServerState, ev: Event, posted: seq<Callback>)
    requires posted == st.posted && forall c :: !Causes(st, ev, c)
    ensures PostsCaused(st, ev, posted)
  {
    hide Causes;
    assert posted == st.posted + [];
  }

  lemma OtherPosts(w: World, ev: Event)
    requires Inv(w) && Allowed(w, ev) && !(ev.WsMessage? && !ev.error && ev.ws in w.server.connections)
    ensures PostsCaused(w.server, ev, Next(w, ev).server.posted)
  {
    hide F.Parse, Check, Greets, Tells, Project, Built, SingleLine, LogOk, PostsCaused;
    var st, posted := w.server, Next(w, ev).server.posted;
    if ev.WsDisconnect? && HasStatus(st, ev.ws, Connected) {
      PostsOne(st, ev, posted, OnClientDisconnect(st.connections[ev.ws].id, !ev.error));
    } else if ev.WsServerDown? {
      PostsOne(st, ev, posted, OnDisconnect(!ev.error));
    } else {
      PostsNone(st, ev, posted);
    }
  }

  lemma OtherAsks(w: World, ev: Event)
    requires Inv(w) && Allowed(w, ev) && !(ev.WsMessage? && !ev.error && ev.ws in w.server.connections)
    ensures forall s :: WireOf(Next(w, ev).server, s) == WireOf(w.server, s) + Asks(w.server, ev, s)
  {
    hide F.Parse, Check, Project, Built, SingleLine, LogOk, Reply;
  }

  lemma OtherLeaves(w: World, ev: Event)
    requires Inv(w) && Allowed(w, ev) && !(ev.WsMessage? && !ev.error && ev.ws in w.server.connections)
    ensures forall s :: ConnectionOf(Next(w, ev).server, s) == ConnectionAfter(w.server, ev, s)
  {
    hide F.Parse, Check, Project, Built, SingleLine, LogOk, Greets, IsMessage;
  }

  /** Every step of the server posts what it causes, asks what it should, and
      leaves every session the connection it should have. */
  lemma EveryStepExactly(w: World, ev: Event)
    requires Inv(w) && Allowed(w, ev)
    ensures StepExactly(w.server, ev, Next(w, ev).server)
  {
    hide Inv, Allowed, Next, PostsCaused, Asks, ConnectionAfter, ConnectionOf, WireOf;
    if ev.WsMessage? && !ev.error && ev.ws in w.server.connections {
      HeardAsks(w, ev.ws, ev.msg, ev.texts, ev.junk);
      HeardPosts(w, ev.ws, ev.msg, ev.texts, ev.junk);
    } else {
      OtherPosts(w, ev);
      OtherAsks(w, ev);
      OtherLeaves(w, ev);
    }
  }

  /** A pending session that sends a text is promoted exactly if the text greets,
      stays pending exactly if parsing it throws, and is closed in all other
      cases. */
  lemma PromotedExactly(w: World, ws: Session, msg: string, texts: FrameTexts, junk: nat)
    requires Inv(w) && Allowed(w, WsMessage(false, ws, msg, texts, junk)) && HasStatus(w.server, ws, Pending)
    ensures var after := Next(w, WsMessage(false, ws, msg, texts, junk)).server;
            && (HasStatus(after, ws, Connected) <==> Greets(w.server.host, msg, junk))
            && (HasStatus(after, ws, Pending) <==> F.Parse(msg).Thrown?)
            && (ws !in after.connections <==> !Greets(w.server.host, msg, junk) && !F.Parse(msg).Thrown?)
  {
    hide F.Parse, Next, Allowed, Inv, Greets, IsMessage;
    var ev := WsMessage(false, ws, msg, texts, junk);
    EveryStepExactly(w, ev);
    Kinds(w.server.host, msg, junk);
    assert ConnectionOf(Next(w, ev).server, ws) == ConnectionAfter(w.server, ev, ws);
  }

  /** A request id is returned exactly if the frame goes to the session of that
      connection, and nothing goes to any other. */
  lemma SendAsksExactly(w: World, id: ConnectionId, requestId: string, destination: string, content: string,
                        text: string, junk: nat)
    requires Inv(w) && Allowed(w, UserSend(id, requestId, destination, content, text, junk))
    ensures var (after, returned) := Send(w.server, id, requestId, text, junk);
            && returned in {"", requestId}
            && forall ws :: WireOf(after, ws) == WireOf(w.server, ws) +
                 if returned != "" && id in w.server.sessions && w.server.sessions[id] == ws then [Text(text)] else []
    ensures Send(w.server, id, requestId, text, junk).1 != "" ==> id in w.server.sessions
  {
    hide Check, Project, LogOk, Built, SingleLine;
  }

  // ----- Every run -----

  lemma {:induction false} RunSplit(w: World, events: seq<Event>, k: nat)
    requires Run(w, events) && k < |events|
    ensures Run(w, events[..k]) && Allowed(After(w, events[..k]), events[k])
    ensures After(w, events[..k + 1]) == Next(After(w, events[..k]), events[k])
    decreases k
  {
    hide Next, Allowed;
    if k == 0 {
      assert events[..1] == [events[0]] && events[..1][1..] == [];
    } else {
      RunSplit(Next(w, events[0]), events[1..], k - 1);
      assert events[..k][1..] == events[1..][..k - 1] && events[..k + 1][1..] == events[1..][..k];
    }
  }

  /** The `k`-th event of the run causes the callback. */
  ghost predicate CausedAt(w: World, events: seq<Event>, k: int, c: Callback) {
    0 <= k < |events| && Causes(After(w, events[..k]).server, events[k], c)
  }

  lemma {:induction false} PostedSoFar(w: World, events: seq<Event>, n: nat, c: Callback)
    requires Inv(w) && Run(w, events) && n <= |events|
    ensures c in After(w, events[..n]).server.posted <==>
      c in w.server.posted || exists k :: k < n && CausedAt(w, events, k, c)
  {
    hide Inv, Causes, Next, Allowed, Run, After;
    if n == 0 {
      StartOfRun(w, events);
    } else {
      PostedSoFar(w, events, n - 1, c);
      RunSplit(w, events, n - 1);
      RunKeeps(w, events[..n - 1]);
      var v := After(w, events[..n - 1]);
      EveryStepExactly(v, events[n - 1]);
      CausedOrPosted(v.server, events[n - 1], Next(v, events[n - 1]).server.posted, c);
      assert CausedAt(w, events, n - 1, c) <==> Causes(v.server, events[n - 1], c);
    }
  }

  lemma StartOfRun(w: World, events: seq<Event>)
    ensures After(w, events[..0]) == w
  {
  }

  lemma CausedOrPosted(st: ServerState, ev: Event, posted: seq<Callback>, c: Callback)
    requires PostsCaused(st, ev, posted)
    ensures c in posted <==> c in st.posted || Causes(st, ev, c)
  {
    hide Causes;
  }

  /** In every run, a callback has been posted exactly if some event caused it. */
  lemma CallbackCauses(host: string, events: seq<Event>, c: Callback)
    requires Run(Init(host), events)
    ensures c in After(Init(host), events).server.posted <==> exists k :: CausedAt(Init(host), events, k, c)
  {
    hide Causes, Next, Run, After;
    InitInv(host);
    PostedSoFar(Init(host), events, |events|, c);
    assert events[..|events|] == events;
  }

  lemma {:induction false} HostStays(w: World, events: seq<Event>)
    ensures After(w, events).server.host == w.server.host
    decreases |events|
  {
    hide Apply;
    if events != [] {
      HostKept(w.server, events[0]);
      HostStays(Next(w, events[0]), events[1..]);
    }
  }

  lemma HostKept(st: ServerState, ev: Event)
    ensures Apply(st, ev).host == st.host
  {
    hide F.Parse, Check, HeaderValue;
  }

  /** The `k`-th event is a greeting, for this host, from the pending session of
      that connection. */
  ghost predicate GreetedAt(host: string, events: seq<Event>, k: int, id: ConnectionId) {
    && 0 <= k < |events| && events[k].WsMessage? && !events[k].error
    && Greets(host, events[k].msg, events[k].junk)
    && var st := After(Init(host), events[..k]).server;
       HasStatus(st, events[k].ws, Pending) && st.connections[events[k].ws].id == id
  }

  /** In every run, the user is told of a client exactly if its session, while
      pending, has sent a greeting of the right version for the server's host. */
  lemma ConnectedByGreeting(host: string, events: seq<Event>, id: ConnectionId)
    requires Run(Init(host), events)
    ensures OnClientConnect(id) in After(Init(host), events).server.posted <==>
      exists k :: GreetedAt(host, events, k, id)
  {
    hide Run, After, Greets;
    CallbackCauses(host, events, OnClientConnect(id));
    forall k ensures CausedAt(Init(host), events, k, OnClientConnect(id)) <==> GreetedAt(host, events, k, id) {
      if 0 <= k < |events| {
        HostStays(Init(host), events[..k]);
      }
    }
  }
}
