/** The STOMP server as a state machine: one function per handler, and what
    every run of them keeps. Handlers run one at a time. */
module ServerModel {
  import Decimal
  import F = Frames
  import opened StompFrames

  /** A WebSocket session object. */
  type Session = nat

  type ConnectionId = string

  datatype ConnectionStatus = Pending | Connected

  datatype Connection = Connection(id: ConnectionId, status: ConnectionStatus)

  /** A user callback, as posted to the user's execution context. */
  datatype Callback =
    | OnClientConnect(id: ConnectionId)
    | OnClientMessage(id: ConnectionId, destination: string, requestId: string, content: string)
    | OnClientDisconnect(id: ConnectionId, clean: bool)
    | OnDisconnect(clean: bool)

  /** What the server asks a session to do. */
  datatype WireItem = Text(text: string) | CloseRequest

  /** `posted` and `wire` are the queues the handlers append to. */
  datatype ServerState = ServerState(
    host: string,
    connections: map<Session, Connection>,
    sessions: map<ConnectionId, Session>,
    posted: seq<Callback>,
    wire: map<Session, seq<WireItem>>)

  const VERSION: string := "1.2"

  function Start(host: string): ServerState {
    ServerState(host, map[], map[], [], map[])
  }

  function WireOf(st: ServerState, ws: Session): seq<WireItem> {
    if ws in st.wire then st.wire[ws] else []
  }

  function Push(st: ServerState, ws: Session, item: WireItem): ServerState {
    st.(wire := st.wire[ws := WireOf(st, ws) + [item]])
  }

  function Post(st: ServerState, callback: Callback): ServerState {
    st.(posted := st.posted + [callback])
  }

  // ----- The frames the server builds -----

  /** The texts of the two frames a handler may build; they depend on the order
      in which a header map is walked. */
  datatype FrameTexts = FrameTexts(error: string, connected: string)

  ghost predicate Built(text: string, p: F.Parts) {
    exists lines :: F.Walks(lines, p.headers) && text == F.Print(p.command, lines, p.body)
  }

  function ErrorParts(): F.Parts {
    F.Parts(F.Error, map[F.ContentType := "text/plain", F.Version := VERSION], "UnsupportedFrame")
  }

  function ConnectedParts(id: ConnectionId): F.Parts {
    F.Parts(F.Connected, map[F.Version := VERSION, F.Session := id], "")
  }

  function SendParts(requestId: string, destination: string, content: string): F.Parts {
    F.Parts(
      F.Send,
      map[F.Id := requestId, F.Destination := destination, F.ContentType := "application/json",
          F.ContentLength := Decimal.Print(|content|)],
      content)
  }

  ghost predicate GoodTexts(texts: FrameTexts, id: ConnectionId) {
    Built(texts.error, ErrorParts()) && Built(texts.connected, ConnectedParts(id))
  }

  // ----- The handlers -----

  function OnWsSessionConnect(st: ServerState, error: bool, ws: Session, newId: ConnectionId): ServerState {
    if error then Push(st, ws, CloseRequest)
    else st.(sessions := st.sessions[newId := ws], connections := st.connections[ws := Connection(newId, Pending)])
  }

  function Forget(st: ServerState, id: ConnectionId, ws: Session): ServerState {
    st.(sessions := st.sessions - {id}, connections := st.connections - {ws})
  }

  /** Closing a connection, with an ERROR frame if `report`. */
  function CloseConnection(st: ServerState, id: ConnectionId, ws: Session, report: bool, errorText: string)
    : ServerState
  {
    var gone := Forget(st, id, ws);
    Push(if report then Push(gone, ws, Text(errorText)) else gone, ws, CloseRequest)
  }

  function HandleStomp(st: ServerState, ws: Session, p: F.Parts, texts: FrameTexts, junk: nat): ServerState
    requires ws in st.connections
  {
    var id := st.connections[ws].id;
    if HeaderValue(p.headers, F.AcceptVersion) != VERSION then CloseConnection(st, id, ws, true, texts.error)
    else if HeaderValue(p.headers, F.Host) != st.host then CloseConnection(st, id, ws, true, texts.error)
    else if st.connections[ws].status != Pending then CloseConnection(st, id, ws, true, texts.error)
    else
      var promoted := st.(connections := st.connections[ws := Connection(id, Connected)]);
      if Check(texts.connected, junk) != Returned(F.Ok) then promoted
      else Post(Push(promoted, ws, Text(texts.connected)), OnClientConnect(id))
  }

  function HandleSend(st: ServerState, ws: Session, p: F.Parts): ServerState
    requires ws in st.connections
  {
    var id := st.connections[ws].id;
    if st.connections[ws].status != Connected then CloseConnection(st, id, ws, false, "")
    else Post(st, OnClientMessage(id, HeaderValue(p.headers, F.Destination), HeaderValue(p.headers, F.Id), p.body))
  }

  /** A message from a session. If the frame parser throws, the exception
      leaves the handler before anything has changed. */
  function OnWsSessionMessage(st: ServerState, error: bool, ws: Session, msg: string,
                              texts: FrameTexts, junk: nat): ServerState
  {
    if ws !in st.connections then Push(st, ws, CloseRequest)
    else if error then st
    else
      match Check(msg, junk)
      case Threw => st
      case Returned(e) =>
        var id := st.connections[ws].id;
        if e != F.Ok || !F.Parse(msg).Parsed? then CloseConnection(st, id, ws, true, texts.error)
        else
          var p := F.Parse(msg).value;
          if p.command == F.Stomp then HandleStomp(st, ws, p, texts, junk)
          else if p.command == F.Send then HandleSend(st, ws, p)
          else CloseConnection(st, id, ws, true, texts.error)
  }

  function OnWsSessionDisconnect(st: ServerState, error: bool, ws: Session): ServerState {
    if ws !in st.connections then st
    else
      var connection := st.connections[ws];
      var gone := Forget(st, connection.id, ws);
      if connection.status == Connected then Post(gone, OnClientDisconnect(connection.id, !error)) else gone
  }

  function OnWsDisconnect(st: ServerState, error: bool): ServerState {
    Post(st, OnDisconnect(!error))
  }

  /** Sending to a client; the result is the request id, empty on failure. */
  function Send(st: ServerState, id: ConnectionId, requestId: string, text: string, junk: nat): (ServerState, string) {
    if id !in st.sessions then (st, "")
    else
      var ws := st.sessions[id];
      if ws !in st.connections then (Push(st, ws, CloseRequest), "")
      else if st.connections[ws].status != Connected then (st, "")
      else if Check(text, junk) != Returned(F.Ok) then (st, "")
      else (Push(st, ws, Text(text)), requestId)
  }

  function Close(st: ServerState, id: ConnectionId): ServerState {
    if id !in st.sessions then st
    else
      var ws := st.sessions[id];
      if ws !in st.connections then Push(st, ws, CloseRequest)
      else CloseConnection(st, st.connections[ws].id, ws, false, "")
  }

  function Stop(st: ServerState): ServerState {
    st.(connections := map[], sessions := map[],
        wire := map ws | ws in st.wire.Keys + st.connections.Keys ::
          WireOf(st, ws) + if ws in st.connections then [CloseRequest] else [])
  }

  // ----- Runs -----

  /** What can happen next. The generated ids, the texts of the frames built
      and the contents of an uninitialized length are given by the event. */
  datatype Event =
    | WsConnect(error: bool, ws: Session, newId: ConnectionId)
    | WsMessage(error: bool, ws: Session, msg: string, texts: FrameTexts, junk: nat)
    | WsDisconnect(error: bool, ws: Session)
    | WsServerDown(error: bool)
    | UserSend(id: ConnectionId, requestId: string, destination: string, content: string, text: string, junk: nat)
    | UserClose(id: ConnectionId)
    | UserStop

  /** The server, the sessions announced so far and the ids generated so far. */
  datatype World = World(server: ServerState, seen: set<Session>, used: set<ConnectionId>)

  function Init(host: string): World {
    World(Start(host), {}, {})
  }

  ghost predicate SingleLine(s: string) {
    s != [] && F.NEW_LINE !in s
  }

  /** The transport announces a session once, and generated ids are new,
      non-empty and free of new lines. Frames are printed in some order. */
  ghost predicate Allowed(w: World, ev: Event) {
    match ev
    case WsConnect(error, ws, newId) => ws !in w.seen && newId !in w.used && SingleLine(newId)
    case WsMessage(error, ws, msg, texts, junk) =>
      ws in w.server.connections ==> GoodTexts(texts, w.server.connections[ws].id)
    case UserSend(id, requestId, destination, content, text, junk) =>
      requestId != "" && Built(text, SendParts(requestId, destination, content))
    case _ => true
  }

  function Apply(st: ServerState, ev: Event): ServerState {
    match ev
    case WsConnect(error, ws, newId) => OnWsSessionConnect(st, error, ws, newId)
    case WsMessage(error, ws, msg, texts, junk) => OnWsSessionMessage(st, error, ws, msg, texts, junk)
    case WsDisconnect(error, ws) => OnWsSessionDisconnect(st, error, ws)
    case WsServerDown(error) => OnWsDisconnect(st, error)
    case UserSend(id, requestId, _, _, text, junk) => Send(st, id, requestId, text, junk).0
    case UserClose(id) => Close(st, id)
    case UserStop => Stop(st)
  }

  function Next(w: World, ev: Event): World {
    World(
      Apply(w.server, ev),
      if ev.WsConnect? then w.seen + {ev.ws} else w.seen,
      if ev.WsConnect? && !ev.error then w.used + {ev.newId} else w.used)
  }

  ghost predicate Run(w: World, events: seq<Event>)
    decreases |events|
  {
    events == [] || (Allowed(w, events[0]) && Run(Next(w, events[0]), events[1..]))
  }

  function After(w: World, events: seq<Event>): World
    decreases |events|
  {
    if events == [] then w else After(Next(w, events[0]), events[1..])
  }

  // ----- The two maps are exact inverses -----

  type Connections = map<Session, Connection>
  type Sessions = map<ConnectionId, Session>

  ghost predicate Inverse(connections: Connections, sessions: Sessions) {
    && (forall ws {:trigger connections[ws]} :: ws in connections ==>
          connections[ws].id in sessions && sessions[connections[ws].id] == ws)
    && (forall id {:trigger sessions[id]} :: id in sessions ==>
          sessions[id] in connections && connections[sessions[id]].id == id)
  }

  lemma InverseRegister(connections: Connections, sessions: Sessions, ws: Session, id: ConnectionId)
    requires Inverse(connections, sessions) && ws !in connections && id !in sessions
    ensures Inverse(connections[ws := Connection(id, Pending)], sessions[id := ws])
  {
  }

  lemma InverseForget(connections: Connections, sessions: Sessions, ws: Session)
    requires Inverse(connections, sessions) && ws in connections
    ensures Inverse(connections - {ws}, sessions - {connections[ws].id})
  {
  }

  lemma InversePromote(connections: Connections, sessions: Sessions, ws: Session)
    requires Inverse(connections, sessions) && ws in connections
    ensures Inverse(connections[ws := Connection(connections[ws].id, Connected)], sessions)
  {
  }

  // ----- The callbacks of one connection -----

  predicate About(c: Callback, id: ConnectionId) {
    !c.OnDisconnect? && c.id == id
  }

  /** The callbacks for one connection id, in order. */
  function Project(log: seq<Callback>, id: ConnectionId): seq<Callback> {
    if log == [] then []
    else Project(log[..|log| - 1], id) + if About(log[|log| - 1], id) then [log[|log| - 1]] else []
  }

  /** connect, then messages only. */
  ghost predicate Open(p: seq<Callback>) {
    && p != [] && p[0].OnClientConnect?
    && forall i :: 0 < i < |p| ==> p[i].OnClientMessage?
  }

  /** Nothing, or connect, then messages, then at most one disconnect. */
  ghost predicate Sentence(p: seq<Callback>) {
    p == [] || Open(p) || (p[|p| - 1].OnClientDisconnect? && Open(p[..|p| - 1]))
  }

  /** The callbacks posted for `id` match its state. */
  ghost predicate LogOk(connections: Connections, sessions: Sessions, posted: seq<Callback>, id: ConnectionId) {
    var p := Project(posted, id);
    if id !in sessions || sessions[id] !in connections then Sentence(p)
    else if connections[sessions[id]].status == Pending then p == []
    else Open(p)
  }

  ghost predicate Safe(connections: Connections, sessions: Sessions, posted: seq<Callback>,
                       seen: set<Session>, used: set<ConnectionId>)
  {
    && Inverse(connections, sessions)
    && connections.Keys <= seen && sessions.Keys <= used
    && (forall id :: id in used ==> SingleLine(id))
    && (forall id {:trigger LogOk(connections, sessions, posted, id)} :: LogOk(connections, sessions, posted, id))
    && (forall id {:trigger Project(posted, id)} :: id !in used ==> Project(posted, id) == [])
  }

  ghost predicate Inv(w: World) {
    Safe(w.server.connections, w.server.sessions, w.server.posted, w.seen, w.used)
  }

  lemma InitInv(host: string)
    ensures Inv(Init(host))
  {
  }

  lemma ProjectPost(log: seq<Callback>, c: Callback, id: ConnectionId)
    ensures Project(log + [c], id) == Project(log, id) + if About(c, id) then [c] else []
  {
    assert (log + [c])[..|log|] == log;
  }

  /** The CONNECTED frame is always valid, so a promoted client is told. */
  lemma ConnectedFrameOk(text: string, id: ConnectionId, junk: nat)
    requires Built(text, ConnectedParts(id)) && SingleLine(id)
    ensures F.Parse(text) == F.Parsed(ConnectedParts(id)) && Check(text, junk) == Returned(F.Ok)
  {
    hide F.Parse, F.Print;
    var p := ConnectedParts(id);
    var lines :| F.Walks(lines, p.headers) && text == F.Print(p.command, lines, p.body);
    assert "1.2"[0] == '1' && "1.2"[1] == '.' && "1.2"[2] == '2';
    F.RoundTrip(p, lines);
  }

  lemma PlainLiterals()
    ensures SingleLine("text/plain") && SingleLine(VERSION) && F.NUL !in "UnsupportedFrame"
  {
  }

  lemma ErrorFrameOk(text: string)
    requires Built(text, ErrorParts())
    ensures F.Parse(text) == F.Parsed(ErrorParts())
  {
    hide F.Parse, F.Print;
    var p := ErrorParts();
    var lines :| F.Walks(lines, p.headers) && text == F.Print(p.command, lines, p.body);
    PlainLiterals();
    F.RoundTrip(p, lines);
  }

  // ----- Every handler keeps the invariant -----

  lemma RegisterKeeps(connections: Connections, sessions: Sessions, posted: seq<Callback>,
                      seen: set<Session>, used: set<ConnectionId>, ws: Session, id: ConnectionId)
    requires Safe(connections, sessions, posted, seen, used)
    requires ws !in seen && id !in used && SingleLine(id)
    ensures Safe(connections[ws := Connection(id, Pending)], sessions[id := ws], posted, seen + {ws}, used + {id})
  {
    var connections', sessions' := connections[ws := Connection(id, Pending)], sessions[id := ws];
    forall i ensures LogOk(connections', sessions', posted, i) {
      assert LogOk(connections, sessions, posted, i);
      assert i == id ==> Project(posted, i) == [];
    }
  }

  /** The maps after a connection has been erased from both. */
  lemma ForgetKeeps(connections: Connections, sessions: Sessions, posted: seq<Callback>,
                    seen: set<Session>, used: set<ConnectionId>, ws: Session)
    requires Safe(connections, sessions, posted, seen, used) && ws in connections
    ensures Safe(connections - {ws}, sessions - {connections[ws].id}, posted, seen, used)
    ensures connections[ws].status == Connected ==> Open(Project(posted, connections[ws].id))
  {
    var id := connections[ws].id;
    forall i ensures LogOk(connections - {ws}, sessions - {id}, posted, i) {
      assert LogOk(connections, sessions, posted, i);
    }
    assert LogOk(connections, sessions, posted, id);
  }

  lemma PostKeeps(connections: Connections, sessions: Sessions, posted: seq<Callback>,
                  seen: set<Session>, used: set<ConnectionId>, c: Callback)
    requires Safe(connections, sessions, posted, seen, used)
    requires !c.OnClientConnect?
    requires c.OnClientMessage? ==> c.id in sessions && connections[sessions[c.id]].status == Connected
    requires c.OnClientDisconnect? ==> c.id in used && c.id !in sessions && Open(Project(posted, c.id))
    ensures Safe(connections, sessions, posted + [c], seen, used)
  {
    forall i
      ensures LogOk(connections, sessions, posted + [c], i)
      ensures i !in used ==> Project(posted + [c], i) == []
    {
      ProjectPost(posted, c, i);
      assert LogOk(connections, sessions, posted, i);
      var p := Project(posted, i);
      assert (p + [c])[..|p|] == p;
    }
  }

  lemma PromoteKeeps(connections: Connections, sessions: Sessions, posted: seq<Callback>,
                     seen: set<Session>, used: set<ConnectionId>, ws: Session)
    requires Safe(connections, sessions, posted, seen, used)
    requires ws in connections && connections[ws].status == Pending
    ensures Safe(connections[ws := Connection(connections[ws].id, Connected)], sessions,
                 posted + [OnClientConnect(connections[ws].id)], seen, used)
  {
    hide Project, LogOk;
    var id := connections[ws].id;
    var connections', c := connections[ws := Connection(id, Connected)], OnClientConnect(id);
    forall i
      ensures LogOk(connections', sessions, posted + [c], i)
      ensures i !in used ==> Project(posted + [c], i) == []
    {
      assert LogOk(connections, sessions, posted, i);
      PromotedLog(connections, sessions, posted, ws, i);
    }
  }

  /** Promoting a session posts the first callback of its connection, and
      nothing for any other. */
  lemma PromotedLog(connections: Connections, sessions: Sessions, posted: seq<Callback>, ws: Session, i: ConnectionId)
    requires Inverse(connections, sessions) && ws in connections && connections[ws].status == Pending
    requires LogOk(connections, sessions, posted, i)
    ensures var c := OnClientConnect(connections[ws].id);
            && LogOk(connections[ws := Connection(c.id, Connected)], sessions, posted + [c], i)
            && (i != c.id ==> Project(posted + [c], i) == Project(posted, i))
  {
    hide Project;
    var id := connections[ws].id;
    ProjectPost(posted, OnClientConnect(id), i);
    if i == id {
      assert Project(posted, i) == [];
    }
  }

  lemma MessageKeeps(w: World, error: bool, ws: Session, msg: string, texts: FrameTexts, junk: nat)
    requires Inv(w) && Allowed(w, WsMessage(error, ws, msg, texts, junk))
    ensures Inv(Next(w, WsMessage(error, ws, msg, texts, junk)))
  {
    hide F.Parse, Check, Project, Safe, Built, HeaderValue, SingleLine;
    var st := w.server;
    if ws in st.connections {
      var id := st.connections[ws].id;
      SafeSession(st.connections, st.sessions, st.posted, w.seen, w.used, ws);
      ForgetKeeps(st.connections, st.sessions, st.posted, w.seen, w.used, ws);
      if st.connections[ws].status == Pending {
        ConnectedFrameOk(texts.connected, id, junk);
        PromoteKeeps(st.connections, st.sessions, st.posted, w.seen, w.used, ws);
      } else if Check(msg, junk).Returned? && F.Parse(msg).Parsed? {
        var p := F.Parse(msg).value;
        PostKeeps(st.connections, st.sessions, st.posted, w.seen, w.used,
          OnClientMessage(id, HeaderValue(p.headers, F.Destination), HeaderValue(p.headers, F.Id), p.body));
      }
    }
  }

  lemma SafeSession(connections: Connections, sessions: Sessions, posted: seq<Callback>,
                    seen: set<Session>, used: set<ConnectionId>, ws: Session)
    requires Safe(connections, sessions, posted, seen, used) && ws in connections
    ensures connections[ws].id in sessions && sessions[connections[ws].id] == ws
    ensures connections[ws].id in used && SingleLine(connections[ws].id)
  {
  }

  lemma NextKeeps(w: World, ev: Event)
    requires Inv(w) && Allowed(w, ev)
    ensures Inv(Next(w, ev))
  {
    hide F.Parse, Check, Project, Built, SingleLine, LogOk, Sentence, Open;
    var st := w.server;
    match ev
    case WsConnect(error, ws, newId) =>
      if !error {
        RegisterKeeps(st.connections, st.sessions, st.posted, w.seen, w.used, ws, newId);
      }
    case WsMessage(error, ws, msg, texts, junk) =>
      MessageKeeps(w, error, ws, msg, texts, junk);
    case WsDisconnect(error, ws) =>
      if ws in st.connections {
        var id := st.connections[ws].id;
        ForgetKeeps(st.connections, st.sessions, st.posted, w.seen, w.used, ws);
        if st.connections[ws].status == Connected {
          PostKeeps(st.connections - {ws}, st.sessions - {id}, st.posted, w.seen, w.used,
            OnClientDisconnect(id, !error));
        }
      }
    case WsServerDown(error) =>
      PostKeeps(st.connections, st.sessions, st.posted, w.seen, w.used, OnDisconnect(!error));
    case UserSend(_, _, _, _, _, _) =>
    case UserClose(id) =>
      if id in st.sessions {
        ForgetKeeps(st.connections, st.sessions, st.posted, w.seen, w.used, st.sessions[id]);
      }
    case UserStop =>
      StopKeeps(st.connections, st.sessions, st.posted, w.seen, w.used);
  }

  lemma StopKeeps(connections: Connections, sessions: Sessions, posted: seq<Callback>,
                  seen: set<Session>, used: set<ConnectionId>)
    requires Safe(connections, sessions, posted, seen, used)
    ensures Safe(map[], map[], posted, seen, used)
  {
    forall i ensures LogOk(map[], map[], posted, i) {
      assert LogOk(connections, sessions, posted, i);
    }
  }

  // ----- All runs -----

  lemma {:induction false} RunKeeps(w: World, events: seq<Event>)
    requires Inv(w) && Run(w, events)
    ensures Inv(After(w, events))
    decreases |events|
  {
    if events != [] {
      NextKeeps(w, events[0]);
      RunKeeps(Next(w, events[0]), events[1..]);
    }
  }

  /** In every reachable state the two maps are exact inverses. */
  lemma MapsStayInverse(host: string, events: seq<Event>)
    requires Run(Init(host), events)
    ensures var st := After(Init(host), events).server; Inverse(st.connections, st.sessions)
  {
    hide Run, After;
    InitInv(host);
    RunKeeps(Init(host), events);
  }

  lemma SentencePrefix(p: seq<Callback>, k: nat)
    requires Sentence(p) && k <= |p|
    ensures Sentence(p[..k])
  {
    if k < |p| && k > 0 {
      assert p[..k][0] == p[0];
      assert forall i :: 0 < i < k ==>
        p[..k][i] == p[i] && (p[|p| - 1].OnClientDisconnect? ==> p[..|p| - 1][i] == p[i]);
    }
  }

  lemma {:induction false} ProjectPrefix(log: seq<Callback>, n: nat, id: ConnectionId)
    requires n <= |log|
    ensures Project(log[..n], id) <= Project(log, id)
    decreases |log|
  {
    if n < |log| {
      ProjectPrefix(log[..|log| - 1], n, id);
      assert log[..|log| - 1][..n] == log[..n];
    } else {
      assert log[..n] == log;
    }
  }

  lemma LogIsSentence(connections: Connections, sessions: Sessions, posted: seq<Callback>, id: ConnectionId)
    requires LogOk(connections, sessions, posted, id)
    ensures Sentence(Project(posted, id))
  {
    hide Project;
  }

  /** In every run, the callbacks posted for a connection, and those delivered
      so far (a prefix, as the queue is first-in first-out), form a sentence. */
  lemma CallbackLanguage(host: string, events: seq<Event>, delivered: nat, id: ConnectionId)
    requires Run(Init(host), events) && delivered <= |After(Init(host), events).server.posted|
    ensures var posted := After(Init(host), events).server.posted;
            Sentence(Project(posted, id)) && Sentence(Project(posted[..delivered], id))
  {
    hide Run, After, Project, Sentence;
    InitInv(host);
    RunKeeps(Init(host), events);
    var st := After(Init(host), events).server;
    LogIsSentence(st.connections, st.sessions, st.posted, id);
    ProjectPrefix(st.posted, delivered, id);
    var p, q := Project(st.posted, id), Project(st.posted[..delivered], id);
    SentencePrefix(p, |q|);
    assert p[..|q|] == q;
  }

  // ----- Lives of connections -----

  /** 0: not assigned yet, 1: pending, 2: connected, 3: gone. */
  function Phase(w: World, id: ConnectionId): nat {
    if id !in w.used then 0
    else if id !in w.server.sessions || w.server.sessions[id] !in w.server.connections then 3
    else if w.server.connections[w.server.sessions[id]].status == Pending then 1
    else 2
  }

  /** A step adds to the maps only the session being announced, and turns no
      connected client back into a pending one. */
  lemma MapsStep(st: ServerState, ev: Event)
    ensures forall id :: id in Apply(st, ev).sessions ==>
      (id in st.sessions && Apply(st, ev).sessions[id] == st.sessions[id]) || (ev.WsConnect? && id == ev.newId)
    ensures forall ws :: ws in Apply(st, ev).connections ==>
      || (ev.WsConnect? && ws == ev.ws)
      || (ws in st.connections && Apply(st, ev).connections[ws].id == st.connections[ws].id &&
          (st.connections[ws].status == Connected ==>
            Apply(st, ev).connections[ws].status == Connected))
  {
    hide F.Parse, Check, HeaderValue, OnWsSessionMessage;
    if ev.WsMessage? {
      MessageMaps(st, ev.error, ev.ws, ev.msg, ev.texts, ev.junk);
    }
  }

  lemma MessageMaps(st: ServerState, error: bool, ws: Session, msg: string, texts: FrameTexts, junk: nat)
    ensures var after := OnWsSessionMessage(st, error, ws, msg, texts, junk);
            && (forall id :: id in after.sessions ==> id in st.sessions && after.sessions[id] == st.sessions[id])
            && forall s :: s in after.connections ==>
                 s in st.connections && after.connections[s].id == st.connections[s].id &&
                 (st.connections[s].status == Connected ==> after.connections[s].status == Connected)
  {
    hide F.Parse, Check, HeaderValue;
  }

  lemma PhaseNeverFalls(w: World, ev: Event, id: ConnectionId)
    requires Inv(w) && Allowed(w, ev)
    ensures Phase(w, id) <= Phase(Next(w, ev), id)
  {
    hide Apply, Project, LogOk, Built, SingleLine, GoodTexts;
    NextKeeps(w, ev);
    MapsStep(w.server, ev);
  }

  /** A step posts at most one callback, and one about a connection only for a
      session whose connection has that id. */
  lemma PostsForItsSession(st: ServerState, ev: Event)
    ensures Apply(st, ev).posted == st.posted ||
            exists c :: Apply(st, ev).posted == st.posted + [c] &&
              (c.OnDisconnect? || exists ws :: ws in st.connections && c.id == st.connections[ws].id)
  {
    hide F.Parse, Check, HeaderValue, OnWsSessionMessage;
    var after := Apply(st, ev).posted;
    if ev.WsMessage? {
      MessagePosts(st, ev.error, ev.ws, ev.msg, ev.texts, ev.junk);
    } else if after != st.posted {
      var c := after[|after| - 1];
      assert after == st.posted + [c];
      assert c.OnDisconnect? || c.id == st.connections[ev.ws].id;
    }
  }

  lemma MessagePosts(st: ServerState, error: bool, ws: Session, msg: string, texts: FrameTexts, junk: nat)
    ensures var after := OnWsSessionMessage(st, error, ws, msg, texts, junk).posted;
            after == st.posted ||
            exists c :: after == st.posted + [c] && (c.OnClientConnect? || c.OnClientMessage?) &&
                        ws in st.connections && c.id == st.connections[ws].id
  {
    hide F.Parse, Check, HeaderValue;
    var after := OnWsSessionMessage(st, error, ws, msg, texts, junk).posted;
    if after != st.posted {
      assert after == st.posted + [after[|after| - 1]];
    }
  }

  /** A connection that is gone posts nothing more. */
  lemma GoneIsSilent(w: World, ev: Event, id: ConnectionId)
    requires Inv(w) && Allowed(w, ev) && Phase(w, id) == 3
    ensures Project(Next(w, ev).server.posted, id) == Project(w.server.posted, id)
  {
    hide Apply, Project, Allowed, SingleLine, LogOk;
    PostsForItsSession(w.server, ev);
    var before, after := w.server.posted, Apply(w.server, ev).posted;
    if after != before {
      var c :| after == before + [c] &&
        (c.OnDisconnect? || exists ws :: ws in w.server.connections && c.id == w.server.connections[ws].id);
      ProjectPost(before, c, id);
    }
  }

  lemma {:induction false} NothingAfterRemoval(w: World, events: seq<Event>, id: ConnectionId)
    requires Inv(w) && Run(w, events) && Phase(w, id) == 3
    ensures Phase(After(w, events), id) == 3
    ensures Project(After(w, events).server.posted, id) == Project(w.server.posted, id)
    decreases |events|
  {
    hide Apply;
    if events != [] {
      NextKeeps(w, events[0]);
      PhaseNeverFalls(w, events[0], id);
      GoneIsSilent(w, events[0], id);
      NothingAfterRemoval(Next(w, events[0]), events[1..], id);
    }
  }

  /** The branches for a session that the connection map does not know cannot
      be reached, and a message is sent exactly to connected clients for which
      a valid frame was built. */
  lemma SendSucceedsWhenConnected(w: World, id: ConnectionId, requestId: string, text: string, junk: nat)
    requires Inv(w)
    ensures id in w.server.sessions ==> w.server.sessions[id] in w.server.connections
    ensures Send(w.server, id, requestId, text, junk).1 != "" <==>
      Phase(w, id) == 2 && requestId != "" && Check(text, junk) == Returned(F.Ok)
    ensures Phase(w, id) != 2 ==> Send(w.server, id, requestId, text, junk).0 == w.server
  {
    hide Check, LogOk, Project;
  }
}
