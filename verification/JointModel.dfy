/** One client and the server, joined by first-in first-out byte channels,
    among any number of other sessions. */
module JointModel {
  import opened Wrappers
  import Decimal
  import F = Frames
  import opened StompFrames
  import S = ServerModel
  import C = ClientModel
  import opened LongValues

  /** A message the client has sent. */
  datatype Sent = Sent(requestId: string, destination: string, content: string)

  /** `taken` texts of the client's outbox have reached the server, `handled` of
      them while the connection was up; the client has read `read` items of its
      session. `id` is the connection id the server gave to the session `ws`,
      `hello` says that the STOMP frame went out first. */
  datatype Joint = Joint(
    world: S.World, client: C.ClientState, ws: S.Session, id: Option<S.ConnectionId>,
    isOpen: bool, hello: bool, taken: nat, handled: nat, read: nat, sends: seq<Sent>)

  function Begin(host: string, client: C.ClientState, ws: S.Session): Joint {
    Joint(S.Init(host), client.(posted := [], outbox := []), ws, None, false, false, 0, 0, 0, [])
  }

  datatype Event =
    | OnServer(event: S.Event)
    | ClientOpens(error: bool, text: string, junk: nat)
    | ClientSends(message: Sent, text: string, junk: nat)
    | ServerReads(texts: S.FrameTexts, junk: nat)
    | ClientReads(junk: nat)

  function Wire(j: Joint): seq<S.WireItem> {
    S.WireOf(j.world.server, j.ws)
  }

  function Reading(j: Joint, texts: S.FrameTexts, junk: nat): S.Event
    requires j.taken < |j.client.outbox|
  {
    S.WsMessage(false, j.ws, j.client.outbox[j.taken], texts, junk)
  }

  /** The server may do anything else meanwhile, but it hears from this session
      only what this client sent, and only after the session was announced. */
  ghost predicate Allowed(j: Joint, ev: Event) {
    match ev
    case OnServer(e) => S.Allowed(j.world, e) && !(e.WsMessage? && !e.error && e.ws == j.ws)
    case ClientOpens(error, text, junk) => !j.isOpen && S.Built(text, C.StompParts(j.client))
    case ClientSends(m, text, junk) =>
      && j.isOpen && S.SingleLine(m.requestId) && |m.content| < Decimal.SIZE_LIMIT
      && S.Built(text, S.SendParts(m.requestId, m.destination, m.content))
    case ServerReads(texts, junk) =>
      && j.taken < |j.client.outbox| && j.ws in j.world.seen
      && S.Allowed(j.world, Reading(j, texts, junk))
    case ClientReads(junk) => j.read < |Wire(j)|
  }

  function Next(j: Joint, ev: Event): Joint
    requires Allowed(j, ev)
  {
    match ev
    case OnServer(e) =>
      j.(world := S.Next(j.world, e),
         id := if e.WsConnect? && !e.error && e.ws == j.ws then Some(e.newId) else j.id)
    case ClientOpens(error, text, junk) =>
      var c := C.OnWsConnect(j.client, error, text, junk);
      j.(client := c, isOpen := !error, hello := c.outbox != j.client.outbox)
    case ClientSends(m, text, junk) =>
      var r := C.Send(j.client, m.requestId, text, junk);
      j.(client := r.0, sends := if r.1 != "" then j.sends + [m] else j.sends)
    case ServerReads(texts, junk) =>
      var w := S.Next(j.world, Reading(j, texts, junk));
      j.(world := w, taken := j.taken + 1,
         handled := if j.id.Some? && S.Phase(w, j.id.value) == 2 then j.taken + 1 else j.handled)
    case ClientReads(junk) =>
      var item := Wire(j)[j.read];
      j.(client := if item.Text? then C.OnWsMessage(j.client, item.text, junk) else j.client, read := j.read + 1)
  }

  ghost predicate Run(j: Joint, events: seq<Event>)
    decreases |events|
  {
    events == [] || (Allowed(j, events[0]) && Run(Next(j, events[0]), events[1..]))
  }

  ghost function After(j: Joint, events: seq<Event>): Joint
    requires Run(j, events)
    decreases |events|
  {
    if events == [] then j else After(Next(j, events[0]), events[1..])
  }

  // ----- What a text says -----

  ghost predicate Says(text: string, c: F.StompCommand) {
    F.Parse(text).Parsed? && F.Parse(text).value.command == c
  }

  /** What a printed frame's command is parsed as, if it is parsed at all. */
  lemma PrintedCommand(c: F.StompCommand, lines: seq<F.HeaderLine>, body: string)
    ensures var s := F.Print(c, lines, body); F.Parse(s).Parsed? ==> F.Parse(s).value.command == c
  {
    hide F.CommandText, F.ToCommand, F.ParseLines, F.PrintLines, F.Index;
    F.CommandNames(c);
    var name, rest := F.CommandText(c), F.PrintLines(lines) + [F.NEW_LINE] + body + [F.NUL];
    assert F.Print(c, lines, body) == name + [F.NEW_LINE] + rest;
    F.IndexOf(name, F.NEW_LINE, rest);
    F.SplitAt(name, F.NEW_LINE, rest);
  }

  lemma BuiltCommand(text: string, p: F.Parts, junk: nat)
    requires S.Built(text, p) && Check(text, junk) == Returned(F.Ok)
    ensures Says(text, p.command)
  {
    hide F.Parse, F.Print;
    OkMeansParsed(text, junk);
    var lines :| F.Walks(lines, p.headers) && text == F.Print(p.command, lines, p.body);
    PrintedCommand(p.command, lines, p.body);
  }

  /** The message a text carries. */
  function Decode(text: string): Sent {
    match F.Parse(text)
    case Parsed(p) => Sent(HeaderValue(p.headers, F.Id), HeaderValue(p.headers, F.Destination), p.body)
    case _ => Sent("", "", "")
  }

  function DecodeAll(texts: seq<string>): seq<Sent> {
    seq(|texts|, i requires 0 <= i < |texts| => Decode(texts[i]))
  }

  lemma SendIsPrintable(m: Sent)
    requires S.SingleLine(m.requestId) && S.SingleLine(m.destination) && |m.content| < Decimal.SIZE_LIMIT
    ensures F.Printable(S.SendParts(m.requestId, m.destination, m.content))
  {
    hide Decimal.Read, Decimal.Print;
    Decimal.ReadPrint(|m.content|);
    Decimal.PrintMeans(|m.content|);
    JsonLiteral();
  }

  /** A valid frame of a message is read as the message that was sent if and
      only if its destination is a single line. */
  lemma DecodeBuilt(text: string, m: Sent, junk: nat)
    requires S.Built(text, S.SendParts(m.requestId, m.destination, m.content))
    requires S.SingleLine(m.requestId) && |m.content| < Decimal.SIZE_LIMIT
    requires Check(text, junk) == Returned(F.Ok)
    ensures Decode(text) == m <==> S.SingleLine(m.destination)
  {
    hide F.Parse, F.Print, F.Printable, F.Walks, Decimal.Print;
    var p := S.SendParts(m.requestId, m.destination, m.content);
    var lines :| F.Walks(lines, p.headers) && text == F.Print(p.command, lines, p.body);
    if S.SingleLine(m.destination) {
      SendIsPrintable(m);
      F.RoundTrip(p, lines);
    }
    BuiltCommand(text, p, junk);
    DestinationIsOneLine(text, junk);
  }

  lemma DestinationIsOneLine(text: string, junk: nat)
    requires Says(text, F.Send) && Check(text, junk) == Returned(F.Ok)
    ensures S.SingleLine(Decode(text).destination)
  {
    hide F.Parse;
    F.ParsedHeadersOk(text);
    var headers := F.Parse(text).value.headers;
    assert F.Destination in headers;
    assert F.LineOk(F.HeaderLine(F.Destination, headers[F.Destination]));
  }

  // ----- A destination that is not a single line -----

  /** For every destination that goes on like a login header after its first
      line, the frame is valid, so that it is sent; but it is read as a message
      to that first line. */
  lemma FirstLineArrives(text: string, m: Sent, d: string, login: string, junk: nat)
    requires S.Built(text, S.SendParts(m.requestId, m.destination, m.content))
    requires S.SingleLine(m.requestId) && |m.content| < Decimal.SIZE_LIMIT
    requires m.destination == d + [F.NEW_LINE] + F.HeaderText(F.Login) + [F.COLON] + login
    requires S.SingleLine(d) && S.SingleLine(login)
    ensures Check(text, junk) == Returned(F.Ok) && Decode(text) == m.(destination := d)
  {
    hide F.Walks, F.Print, F.Printable, S.Built, S.SingleLine, S.SendParts, WithLogin, Decode, Check;
    BuiltWithLogin(text, m, d, login);
    LoginIsPrintable(m.(destination := d), login);
    LoginIsRead(text, m.(destination := d), login, junk);
  }

  /** The parts of a message's frame, and a login header. */
  function WithLogin(m: Sent, login: string): F.Parts {
    var p := S.SendParts(m.requestId, m.destination, m.content);
    p.(headers := p.headers[F.Login := login])
  }

  lemma BuiltWithLogin(text: string, m: Sent, d: string, login: string)
    requires S.Built(text, S.SendParts(m.requestId, m.destination, m.content))
    requires m.destination == d + [F.NEW_LINE] + F.HeaderText(F.Login) + [F.COLON] + login
    ensures S.Built(text, WithLogin(m.(destination := d), login))
  {
    hide F.Walks, F.HeaderText, F.PrintLines, F.CommandText, Decimal.Print;
    var p, q := S.SendParts(m.requestId, m.destination, m.content), WithLogin(m.(destination := d), login);
    var lines :| F.Walks(lines, p.headers) && text == F.Print(p.command, lines, p.body);
    var two := WalksAsTwo(lines, p.headers, F.HeaderLine(F.Destination, d), F.HeaderLine(F.Login, login));
    assert q.headers == p.headers[F.Destination := d][F.Login := login];
    assert text == F.Print(q.command, two, q.body);
  }

  lemma LoginIsPrintable(m: Sent, login: string)
    requires S.SingleLine(m.requestId) && S.SingleLine(m.destination) && |m.content| < Decimal.SIZE_LIMIT
    requires S.SingleLine(login)
    ensures F.Printable(WithLogin(m, login))
  {
    hide Decimal.Print, Decimal.Read;
    SendIsPrintable(m);
  }

  lemma LoginIsRead(text: string, m: Sent, login: string, junk: nat)
    requires S.Built(text, WithLogin(m, login)) && F.Printable(WithLogin(m, login))
    requires |m.content| < Decimal.SIZE_LIMIT
    ensures Check(text, junk) == Returned(F.Ok) && Decode(text) == m
  {
    hide F.Walks, F.Print, F.Parse, F.Printable, Decimal.Print, Decimal.Read;
    var p := WithLogin(m, login);
    var lines :| F.Walks(lines, p.headers) && text == F.Print(p.command, lines, p.body);
    F.RoundTrip(p, lines);
    Decimal.ReadPrint(|m.content|);
  }

  lemma JsonLiteral()
    ensures S.SingleLine("application/json")
  {
  }

  // ----- What one step of the server means to the session -----

  /** The messages among some callbacks. */
  function Messages(log: seq<S.Callback>): seq<Sent> {
    if log == [] then []
    else
      var c := log[|log| - 1];
      Messages(log[..|log| - 1]) +
      if c.OnClientMessage? then [Sent(c.requestId, c.destination, c.content)] else []
  }

  lemma MessagesSnoc(log: seq<S.Callback>, c: S.Callback)
    ensures Messages(log + [c]) ==
      Messages(log) + if c.OnClientMessage? then [Sent(c.requestId, c.destination, c.content)] else []
  {
    assert (log + [c])[..|log|] == log;
  }

  /** How many CONNECTED frames are among the items of a session. */
  ghost function ConnectedFrames(items: seq<S.WireItem>): nat {
    if items == [] then 0
    else
      ConnectedFrames(items[..|items| - 1]) +
      if items[|items| - 1].Text? && Says(items[|items| - 1].text, F.Connected) then 1 else 0
  }

  lemma ConnectedFramesSnoc(items: seq<S.WireItem>, item: S.WireItem)
    ensures ConnectedFrames(items + [item]) ==
      ConnectedFrames(items) + if item.Text? && Says(item.text, F.Connected) then 1 else 0
  {
    assert (items + [item])[..|items|] == items;
  }

  lemma {:induction false} ConnectedFramesPrefix(items: seq<S.WireItem>, n: nat)
    requires n <= |items|
    ensures ConnectedFrames(items[..n]) <= ConnectedFrames(items)
    decreases |items|
  {
    if n < |items| {
      ConnectedFramesPrefix(items[..|items| - 1], n);
      assert items[..|items| - 1][..n] == items[..n];
    } else {
      assert items[..n] == items;
    }
  }

  /** A session and its connection id, as the server has linked them. The empty
      id stands for none. */
  ghost predicate Linked(w: S.World, ws: S.Session, id: S.ConnectionId) {
    && (id == "" || id in w.used)
    && (ws in w.server.connections ==> w.server.connections[ws].id == id)
    && (id in w.server.sessions ==> w.server.sessions[id] == ws)
  }

  function Log(w: S.World, id: S.ConnectionId): seq<S.Callback> {
    S.Project(w.server.posted, id)
  }

  /** A step that tells this session nothing new: no message of it is posted,
      it gets no CONNECTED frame, and at most it is closed. */
  ghost predicate Quiet(w: S.World, w': S.World, ws: S.Session, id: S.ConnectionId) {
    && Messages(Log(w', id)) == Messages(Log(w, id))
    && (Log(w', id) == [] <==> Log(w, id) == [])
    && ConnectedFrames(S.WireOf(w'.server, ws)) == ConnectedFrames(S.WireOf(w.server, ws))
    && (S.Phase(w', id) == S.Phase(w, id) || S.Phase(w', id) == 3)
    && Linked(w', ws, id)
  }

  lemma WirePush(st: S.ServerState, to: S.Session, item: S.WireItem, ws: S.Session)
    ensures S.WireOf(S.Push(st, to, item), ws) == S.WireOf(st, ws) + if to == ws then [item] else []
    ensures ConnectedFrames(S.WireOf(S.Push(st, to, item), ws)) ==
      ConnectedFrames(S.WireOf(st, ws)) +
      if to == ws && item.Text? && Says(item.text, F.Connected) then 1 else 0
  {
    ConnectedFramesSnoc(S.WireOf(st, ws), item);
  }

  /** The server's own record of a session, however it is stored. */
  datatype View = View(connection: Option<S.Connection>, log: seq<S.Callback>, frames: nat)

  ghost function ViewOf(st: S.ServerState, ws: S.Session, id: S.ConnectionId): View {
    View(if ws in st.connections then Some(st.connections[ws]) else None,
         S.Project(st.posted, id),
         ConnectedFrames(S.WireOf(st, ws)))
  }

  lemma PhaseOfView(w: S.World, ws: S.Session, id: S.ConnectionId)
    requires S.Inv(w) && Linked(w, ws, id)
    ensures var v := ViewOf(w.server, ws, id);
            S.Phase(w, id) == if id == "" then 0
                              else if v.connection.None? then 3
                              else if v.connection.value.status == S.Pending then 1 else 2
    ensures id == "" ==> ws !in w.server.connections && Log(w, id) == []
    ensures S.Phase(w, id) == 1 ==> Log(w, id) == []
    ensures S.Phase(w, id) == 2 ==> S.Open(Log(w, id))
  {
    hide S.Project;
    assert S.LogOk(w.server.connections, w.server.sessions, w.server.posted, id);
    assert S.Project(w.server.posted, id) == Log(w, id);
  }

  lemma ErrorIsNotConnected(text: string)
    requires S.Built(text, S.ErrorParts())
    ensures !Says(text, F.Connected)
  {
    hide F.Parse, S.Built;
    S.ErrorFrameOk(text);
  }

  /** Closing a session, with or without an ERROR frame. */
  lemma ClosedView(st: S.ServerState, cid: S.ConnectionId, to: S.Session, report: bool, errorText: string,
                   ws: S.Session, id: S.ConnectionId)
    requires report ==> S.Built(errorText, S.ErrorParts())
    ensures ViewOf(S.CloseConnection(st, cid, to, report, errorText), ws, id) ==
      if to == ws then ViewOf(st, ws, id).(connection := None) else ViewOf(st, ws, id)
  {
    hide S.Project, S.Built, Says, ConnectedFrames, S.ErrorParts, S.Push, S.WireOf;
    var gone := S.Forget(st, cid, to);
    ForgetView(st, cid, to, ws, id);
    if report {
      ErrorIsNotConnected(errorText);
      PushView(gone, to, S.Text(errorText), ws, id);
      PushView(S.Push(gone, to, S.Text(errorText)), to, S.CloseRequest, ws, id);
    } else {
      PushView(gone, to, S.CloseRequest, ws, id);
    }
  }

  lemma ForgetView(st: S.ServerState, cid: S.ConnectionId, to: S.Session, ws: S.Session, id: S.ConnectionId)
    ensures ViewOf(S.Forget(st, cid, to), ws, id) ==
      if to == ws then ViewOf(st, ws, id).(connection := None) else ViewOf(st, ws, id)
  {
    hide S.Project, ConnectedFrames;
  }

  lemma PushView(st: S.ServerState, to: S.Session, item: S.WireItem, ws: S.Session, id: S.ConnectionId)
    requires item.Text? ==> !Says(item.text, F.Connected)
    ensures ViewOf(S.Push(st, to, item), ws, id) == ViewOf(st, ws, id)
  {
    hide S.Project, ConnectedFrames, Says;
    WirePush(st, to, item, ws);
  }

  /** A message from another session does not show. */
  lemma ForeignMessageView(w: S.World, from: S.Session, msg: string, texts: S.FrameTexts, junk: nat,
                           ws: S.Session, id: S.ConnectionId)
    requires S.Inv(w) && Linked(w, ws, id) && from != ws
    requires S.Allowed(w, S.WsMessage(false, from, msg, texts, junk))
    ensures ViewOf(S.OnWsSessionMessage(w.server, false, from, msg, texts, junk), ws, id) == ViewOf(w.server, ws, id)
  {
    hide F.Parse, Check, S.Project, S.Built, HeaderValue, Says, ConnectedFrames;
    var st := w.server;
    if from in st.connections {
      var cid := st.connections[from].id;
      assert cid != id;
      ClosedView(st, cid, from, true, texts.error, ws, id);
      ClosedView(st, cid, from, false, "", ws, id);
      S.ProjectPost(st.posted, S.OnClientConnect(cid), id);
      if F.Parse(msg).Parsed? {
        var p := F.Parse(msg).value;
        S.ProjectPost(st.posted, S.OnClientMessage(cid, HeaderValue(p.headers, F.Destination),
          HeaderValue(p.headers, F.Id), p.body), id);
      }
    }
  }

  lemma StopView(st: S.ServerState, ws: S.Session, id: S.ConnectionId)
    ensures ViewOf(S.Stop(st), ws, id) == ViewOf(st, ws, id).(connection := None)
  {
    ConnectedFramesSnoc(S.WireOf(st, ws), S.CloseRequest);
    assert S.WireOf(st, ws) + [] == S.WireOf(st, ws);
  }

  lemma LinkedStays(w: S.World, e: S.Event, ws: S.Session, id: S.ConnectionId)
    requires S.Inv(w) && S.Allowed(w, e) && Linked(w, ws, id) && !(e.WsConnect? && e.ws == ws)
    ensures Linked(S.Next(w, e), ws, id)
  {
    hide S.Apply, S.Inv, S.Built, S.SingleLine;
    S.MapsStep(w.server, e);
    if e.WsConnect? {
      NonEmpty(e.newId);
    }
  }

  /** What the other steps of the server may do to the session: nothing, close
      it, or close it and say so. */
  lemma OtherStepView(w: S.World, e: S.Event, ws: S.Session, id: S.ConnectionId)
    requires S.Inv(w) && S.Allowed(w, e) && Linked(w, ws, id)
    requires !(e.WsMessage? && !e.error && e.ws == ws) && !(e.WsConnect? && e.ws == ws)
    ensures var v, v' := ViewOf(w.server, ws, id), ViewOf(S.Next(w, e).server, ws, id);
            || v' == v || v' == v.(connection := None)
            || (v.connection.Some? && v.connection.value.status == S.Connected && e.WsDisconnect? &&
                v' == View(None, v.log + [S.OnClientDisconnect(id, !e.error)], v.frames))
  {
    hide F.Parse, Check, S.Project, S.Built, S.SingleLine, S.LogOk, ConnectedFrames, S.HandleStomp, S.HandleSend, Says;
    var st := w.server;
    match e
    case WsConnect(error, to, newId) =>
      WirePush(st, to, S.CloseRequest, ws);
    case WsMessage(error, from, msg, texts, junk) =>
      WirePush(st, from, S.CloseRequest, ws);
      if !error {
        ForeignMessageView(w, from, msg, texts, junk, ws, id);
      }
    case WsDisconnect(error, from) =>
      if from in st.connections {
        S.ProjectPost(st.posted, S.OnClientDisconnect(st.connections[from].id, !error), id);
      }
    case WsServerDown(error) =>
      S.ProjectPost(st.posted, S.OnDisconnect(!error), id);
    case UserSend(to, requestId, destination, content, text, junk) =>
      if to in st.sessions && Check(text, junk) == Returned(F.Ok) {
        BuiltCommand(text, S.SendParts(requestId, destination, content), junk);
        SaysOne(text);
        WirePush(st, st.sessions[to], S.Text(text), ws);
      }
    case UserClose(to) =>
      if to in st.sessions {
        ClosedView(st, st.connections[st.sessions[to]].id, st.sessions[to], false, "", ws, id);
      }
    case UserStop =>
      StopView(st, ws, id);
  }

  lemma SaysOne(text: string)
    ensures Says(text, F.Send) ==> !Says(text, F.Connected)
  {
    hide F.Parse;
  }

  lemma OtherStepIsQuiet(w: S.World, e: S.Event, ws: S.Session, id: S.ConnectionId)
    requires S.Inv(w) && S.Allowed(w, e) && Linked(w, ws, id)
    requires !(e.WsMessage? && !e.error && e.ws == ws) && !(e.WsConnect? && e.ws == ws)
    ensures Quiet(w, S.Next(w, e), ws, id)
  {
    hide S.Next, S.Allowed, S.Project, ConnectedFrames, S.Inv, S.Phase;
    OtherStepView(w, e, ws, id);
    LinkedStays(w, e, ws, id);
    S.NextKeeps(w, e);
    PhaseOfView(w, ws, id);
    PhaseOfView(S.Next(w, e), ws, id);
    if e.WsDisconnect? {
      MessagesSnoc(Log(w, id), S.OnClientDisconnect(id, !e.error));
    }
  }

  /** Hearing from the session while it is pending. */
  lemma PendingStepView(w: S.World, e: S.Event, ws: S.Session, id: S.ConnectionId)
    requires S.Inv(w) && S.Allowed(w, e) && Linked(w, ws, id) && S.Phase(w, id) == 1
    requires e.WsMessage? && !e.error && e.ws == ws && (Says(e.msg, F.Stomp) || Says(e.msg, F.Send))
    ensures var v, v' := ViewOf(w.server, ws, id), ViewOf(S.Next(w, e).server, ws, id);
            || v' == v.(connection := None)
            || (Says(e.msg, F.Stomp) &&
                v' == View(Some(S.Connection(id, S.Connected)), v.log + [S.OnClientConnect(id)], v.frames + 1))
  {
    hide F.Parse, Check, S.Project, S.Built, ConnectedFrames, HeaderValue, S.CloseConnection, S.LogOk, S.SingleLine;
    var st := w.server;
    PhaseOfView(w, ws, id);
    S.SafeSession(st.connections, st.sessions, st.posted, w.seen, w.used, ws);
    ClosedView(st, id, ws, true, e.texts.error, ws, id);
    ClosedView(st, id, ws, false, "", ws, id);
    S.ConnectedFrameOk(e.texts.connected, id, e.junk);
    var promoted := st.(connections := st.connections[ws := S.Connection(id, S.Connected)]);
    WirePush(promoted, ws, S.Text(e.texts.connected), ws);
    S.ProjectPost(st.posted, S.OnClientConnect(id), id);
    ParsedIsReturned(e.msg, e.junk);
  }

  lemma ParsedIsReturned(text: string, junk: nat)
    ensures F.Parse(text).Parsed? ==> Check(text, junk).Returned?
  {
    hide F.Parse, F.Validate;
  }

  /** Hearing a message from the session while it is connected. */
  lemma ConnectedStepView(w: S.World, e: S.Event, ws: S.Session, id: S.ConnectionId)
    requires S.Inv(w) && S.Allowed(w, e) && Linked(w, ws, id) && S.Phase(w, id) == 2
    requires e.WsMessage? && !e.error && e.ws == ws && Says(e.msg, F.Send)
    ensures var v, v', m := ViewOf(w.server, ws, id), ViewOf(S.Next(w, e).server, ws, id), Decode(e.msg);
            || v' == v.(connection := None)
            || v' == v.(log := v.log + [S.OnClientMessage(id, m.destination, m.requestId, m.content)])
  {
    hide F.Parse, Check, S.Project, S.Built, ConnectedFrames, HeaderValue, S.CloseConnection, S.LogOk, S.SingleLine;
    var st, m := w.server, Decode(e.msg);
    PhaseOfView(w, ws, id);
    ClosedView(st, id, ws, true, e.texts.error, ws, id);
    S.ProjectPost(st.posted, S.OnClientMessage(id, m.destination, m.requestId, m.content), id);
    ParsedIsReturned(e.msg, e.junk);
  }

  // ----- What every joint run keeps -----

  function Cid(j: Joint): S.ConnectionId {
    if j.id.Some? then j.id.value else ""
  }

  /** The text is a valid frame of the message. */
  ghost predicate Carries(text: string, m: Sent) {
    && Says(text, F.Send) && S.Built(text, S.SendParts(m.requestId, m.destination, m.content))
    && S.SingleLine(m.requestId) && |m.content| < Decimal.SIZE_LIMIT
    && exists junk :: Check(text, junk) == Returned(F.Ok)
  }

  function Offset(j: Joint): nat {
    if j.hello then 1 else 0
  }

  /** The STOMP frame first, if it was valid, and then the messages. */
  ghost predicate OutboxOk(j: Joint) {
    && |j.client.outbox| == |j.sends| + Offset(j)
    && (j.hello ==> Says(j.client.outbox[0], F.Stomp))
    && (!j.isOpen ==> j.client.outbox == [])
    && forall i :: 0 <= i < |j.sends| ==> Carries(j.client.outbox[i + Offset(j)], j.sends[i])
  }

  /** The messages handled so far, as their texts say. */
  function HandledMessages(j: Joint): seq<Sent>
    requires j.handled <= |j.client.outbox|
  {
    if j.handled == 0 then [] else DecodeAll(j.client.outbox[1..j.handled])
  }

  ghost predicate ServerOk(j: Joint) {
    var w, id := j.world, Cid(j);
    && S.Inv(w) && Linked(w, j.ws, id)
    && (j.id.Some? ==> id != "" && j.ws in w.seen)
    && (j.ws !in w.seen ==> j.taken == 0)
    && j.handled <= j.taken <= |j.client.outbox|
    && (j.handled > 0 ==> j.hello)
    && Messages(Log(w, id)) == HandledMessages(j)
    && ConnectedFrames(Wire(j)) == (if Log(w, id) == [] then 0 else 1)
    && (S.Phase(w, id) == 1 ==> j.taken == 0)
    && (S.Phase(w, id) == 2 ==> j.handled == j.taken > 0)
  }

  /** How often the client's user was told that the connection is up. */
  function Told(posted: seq<C.ClientCallback>): nat {
    if posted == [] then 0
    else Told(posted[..|posted| - 1]) + if posted[|posted| - 1] == C.OnConnect(C.ClientOk) then 1 else 0
  }

  lemma ToldSnoc(posted: seq<C.ClientCallback>, c: C.ClientCallback)
    ensures Told(posted + [c]) == Told(posted) + if c == C.OnConnect(C.ClientOk) then 1 else 0
  {
    assert (posted + [c])[..|posted|] == posted;
  }

  ghost predicate ToldOk(j: Joint) {
    j.read <= |Wire(j)| && Told(j.client.posted) <= ConnectedFrames(Wire(j)[..j.read])
  }

  ghost predicate Inv(j: Joint) {
    OutboxOk(j) && ServerOk(j) && ToldOk(j)
  }

  lemma BeginInv(host: string, client: C.ClientState, ws: S.Session)
    ensures Inv(Begin(host, client, ws))
  {
    S.InitInv(host);
  }

  lemma {:induction false} DecodeAllSnoc(texts: seq<string>, n: nat)
    requires 1 <= n < |texts|
    ensures DecodeAll(texts[1..n + 1]) == DecodeAll(texts[1..n]) + [Decode(texts[n])]
  {
    hide Decode;
  }

  lemma OpensKeeps(j: Joint, ev: Event)
    requires Inv(j) && ev.ClientOpens? && Allowed(j, ev)
    ensures Inv(Next(j, ev))
  {
    hide F.Parse, Check, S.Built, S.Inv, S.Phase, ConnectedFrames, S.Project, C.StompParts, Says, Carries, Linked, Told,
      Messages, Decode;
    OpeningTells(j.client, ev.error, ev.text, ev.junk);
    if C.OnWsConnect(j.client, ev.error, ev.text, ev.junk).outbox != j.client.outbox {
      BuiltCommand(ev.text, C.StompParts(j.client), ev.junk);
      StompCommandOf(j.client);
    }
  }

  /** Opening the connection does not tell the user that it is up. */
  lemma OpeningTells(c: C.ClientState, error: bool, text: string, junk: nat)
    ensures Told(C.OnWsConnect(c, error, text, junk).posted) == Told(c.posted)
  {
    hide Check;
    ToldSnoc(c.posted, C.OnConnect(C.CouldNotConnectToWebSocketServer));
    ToldSnoc(c.posted, C.OnConnect(C.UnexpectedCouldNotCreateValidFrame));
  }

  lemma StompCommandOf(c: C.ClientState)
    ensures C.StompParts(c).command == F.Stomp
  {
  }

  /** The outbox and the sends have grown by one message. */
  lemma OutboxGrows(j: Joint, k: Joint, text: string, m: Sent)
    requires OutboxOk(j) && j.isOpen && Carries(text, m)
    requires k == j.(client := j.client.(outbox := j.client.outbox + [text]), sends := j.sends + [m])
    ensures OutboxOk(k)
  {
    hide S.Built, Says, Carries, S.SingleLine;
  }

  lemma HandledStays(j: Joint, k: Joint, text: string, m: Sent)
    requires ServerOk(j) && ToldOk(j)
    requires k == j.(client := j.client.(outbox := j.client.outbox + [text]), sends := j.sends + [m])
    ensures ServerOk(k) && ToldOk(k)
  {
    hide S.Inv, S.Phase, ConnectedFrames, S.Project, Linked, Decode;
    assert j.handled > 0 ==> k.client.outbox[1..j.handled] == j.client.outbox[1..j.handled];
  }

  lemma SendsKeeps(j: Joint, ev: Event)
    requires Inv(j) && ev.ClientSends? && Allowed(j, ev)
    ensures Inv(Next(j, ev))
  {
    hide F.Parse, Check, S.Built, OutboxOk, ServerOk, ToldOk, Says, S.SendParts, S.SingleLine;
    var m := ev.message;
    if Check(ev.text, ev.junk) == Returned(F.Ok) {
      BuiltCommand(ev.text, S.SendParts(m.requestId, m.destination, m.content), ev.junk);
      SendCommandOf(m);
      NonEmpty(m.requestId);
      OutboxGrows(j, Next(j, ev), ev.text, m);
      HandledStays(j, Next(j, ev), ev.text, m);
    }
  }

  lemma SendCommandOf(m: Sent)
    ensures S.SendParts(m.requestId, m.destination, m.content).command == F.Send
  {
  }

  lemma NonEmpty(s: string)
    ensures S.SingleLine(s) ==> s != ""
  {
  }

  /** The client is told of the connection only by a CONNECTED frame. */
  lemma ClientHears(c: C.ClientState, text: string, junk: nat)
    ensures var c' := C.OnWsMessage(c, text, junk);
            && c' == c.(posted := c'.posted)
            && Told(c'.posted) <= Told(c.posted) + if Says(text, F.Connected) then 1 else 0
  {
    hide F.Parse, Check, HeaderValue;
    var c' := C.OnWsMessage(c, text, junk);
    if c'.posted != c.posted {
      var callback := c'.posted[|c.posted|];
      assert c'.posted == c.posted + [callback];
      ToldSnoc(c.posted, callback);
    }
  }

  lemma ClientReadsTold(j: Joint, ev: Event)
    requires ToldOk(j) && ev.ClientReads? && Allowed(j, ev)
    ensures ToldOk(Next(j, ev)) && Next(j, ev).client == j.client.(posted := Next(j, ev).client.posted)
  {
    hide ConnectedFrames, C.OnWsMessage, Says, Told;
    var item, items := Wire(j)[j.read], Wire(j);
    assert items[..j.read + 1] == items[..j.read] + [item];
    ConnectedFramesSnoc(items[..j.read], item);
    if item.Text? {
      ClientHears(j.client, item.text, ev.junk);
    }
  }

  lemma ClientReadsKeeps(j: Joint, ev: Event)
    requires Inv(j) && ev.ClientReads? && Allowed(j, ev)
    ensures Inv(Next(j, ev))
  {
    hide S.Inv, S.Phase, S.Project, ConnectedFrames, C.OnWsMessage, Carries, Linked, ToldOk, Decode;
    ClientReadsTold(j, ev);
  }

  /** The server's items only grow. */
  lemma WireGrows(w: S.World, e: S.Event, ws: S.Session)
    ensures S.WireOf(w.server, ws) <= S.WireOf(S.Next(w, e).server, ws)
  {
    hide F.Parse, Check, S.Project, HeaderValue;
  }

  lemma ToldStays(j: Joint, e: S.Event, k: Joint)
    requires ToldOk(j) && k.world == S.Next(j.world, e) && k.ws == j.ws
    requires k.read == j.read && k.client == j.client
    ensures ToldOk(k)
  {
    hide S.Next, ConnectedFrames;
    WireGrows(j.world, e, j.ws);
    assert Wire(k)[..j.read] == Wire(j)[..j.read];
  }

  /** Steps that do not concern the session, or only close it. */
  lemma QuietKeeps(j: Joint, e: S.Event, k: Joint)
    requires Inv(j) && S.Allowed(j.world, e) && Quiet(j.world, S.Next(j.world, e), j.ws, Cid(j))
    requires S.Inv(S.Next(j.world, e)) && j.world.seen <= S.Next(j.world, e).seen
    requires k == j.(world := S.Next(j.world, e)) || (k == j.(world := S.Next(j.world, e), taken := j.taken + 1) &&
      j.taken < |j.client.outbox| && j.ws in j.world.seen && S.Phase(k.world, Cid(j)) !in {1, 2})
    ensures Inv(k)
  {
    hide S.Next, S.Inv, S.Phase, S.Project, ConnectedFrames, Says, Carries, S.Allowed;
    ToldStays(j, e, k);
  }

  lemma ServerStepKeeps(j: Joint, ev: Event)
    requires Inv(j) && ev.OnServer? && Allowed(j, ev)
    ensures Inv(Next(j, ev))
  {
    hide S.Next, S.Inv, S.Phase, S.Project, ConnectedFrames, Says, Carries;
    var e := ev.event;
    S.NextKeeps(j.world, e);
    SeenGrows(j.world, e);
    if e.WsConnect? && e.ws == j.ws {
      ConnectKeeps(j, ev);
    } else {
      OtherStepIsQuiet(j.world, e, j.ws, Cid(j));
      QuietKeeps(j, e, Next(j, ev));
    }
  }

  lemma SeenGrows(w: S.World, e: S.Event)
    ensures w.seen <= S.Next(w, e).seen
  {
    hide S.Apply;
  }

  /** The transport announces the session to the server. */
  lemma ConnectKeeps(j: Joint, ev: Event)
    requires Inv(j) && ev.OnServer? && Allowed(j, ev) && ev.event.WsConnect? && ev.event.ws == j.ws
    ensures Inv(Next(j, ev))
  {
    hide S.LogOk, ConnectedFrames, Says, Carries, S.Project;
    var e, st := ev.event, j.world.server;
    S.NextKeeps(j.world, e);
    NonEmpty(e.newId);
    ToldStays(j, e, Next(j, ev));
    PushView(st, j.ws, S.CloseRequest, j.ws, "");
    assert ViewOf(S.Push(st, j.ws, S.CloseRequest), j.ws, "") == ViewOf(st, j.ws, "");
    assert Log(j.world, e.newId) == [];
  }

  /** Hearing from a session that the server does not know changes nothing. */
  lemma UnknownStepView(w: S.World, e: S.Event, ws: S.Session, id: S.ConnectionId)
    requires e.WsMessage? && !e.error && e.ws == ws && ws !in w.server.connections
    ensures ViewOf(S.Next(w, e).server, ws, id) == ViewOf(w.server, ws, id)
  {
    hide S.Project, ConnectedFrames, Says;
    PushView(w.server, ws, S.CloseRequest, ws, id);
  }

  /** A step after which the session has the same record, or is closed, is quiet. */
  lemma SameViewIsQuiet(w: S.World, w': S.World, ws: S.Session, id: S.ConnectionId)
    requires S.Inv(w) && S.Inv(w') && Linked(w, ws, id) && Linked(w', ws, id)
    requires var v, v' := ViewOf(w.server, ws, id), ViewOf(w'.server, ws, id);
             v' == v || v' == v.(connection := None)
    ensures Quiet(w, w', ws, id)
    ensures ViewOf(w'.server, ws, id).connection.None? ==> S.Phase(w', id) !in {1, 2}
  {
    hide S.Project, ConnectedFrames, S.Inv, S.Phase;
    PhaseOfView(w, ws, id);
    PhaseOfView(w', ws, id);
  }

  /** The server takes the STOMP frame and connects. */
  lemma PromotedKeeps(j: Joint, e: S.Event, k: Joint)
    requires Inv(j) && S.Phase(j.world, Cid(j)) == 1 && j.hello && 0 < |j.client.outbox|
    requires k == j.(world := S.Next(j.world, e), taken := 1, handled := 1)
    requires S.Inv(k.world) && Linked(k.world, j.ws, Cid(j)) && j.world.seen <= k.world.seen
    requires var v := ViewOf(j.world.server, j.ws, Cid(j));
             ViewOf(k.world.server, j.ws, Cid(j)) ==
             View(Some(S.Connection(Cid(j), S.Connected)), v.log + [S.OnClientConnect(Cid(j))], v.frames + 1)
    ensures Inv(k)
  {
    hide S.Next, S.Inv, S.Phase, S.Project, ConnectedFrames, Says, Carries, Linked;
    PhaseOfView(j.world, j.ws, Cid(j));
    PhaseOfView(k.world, j.ws, Cid(j));
    MessagesSnoc(Log(j.world, Cid(j)), S.OnClientConnect(Cid(j)));
    ToldStays(j, e, k);
  }

  /** The server takes a message and posts it. */
  lemma PostedKeeps(j: Joint, e: S.Event, k: Joint)
    requires Inv(j) && S.Phase(j.world, Cid(j)) == 2 && j.taken < |j.client.outbox|
    requires k == j.(world := S.Next(j.world, e), taken := j.taken + 1, handled := j.taken + 1)
    requires S.Inv(k.world) && Linked(k.world, j.ws, Cid(j)) && j.world.seen <= k.world.seen
    requires var v, m := ViewOf(j.world.server, j.ws, Cid(j)), Decode(j.client.outbox[j.taken]);
             ViewOf(k.world.server, j.ws, Cid(j)) ==
             v.(log := v.log + [S.OnClientMessage(Cid(j), m.destination, m.requestId, m.content)])
    ensures Inv(k)
  {
    hide S.Next, S.Inv, S.Phase, S.Project, ConnectedFrames, Says, Carries, Linked, Decode;
    var m := Decode(j.client.outbox[j.taken]);
    PhaseOfView(j.world, j.ws, Cid(j));
    PhaseOfView(k.world, j.ws, Cid(j));
    MessagesSnoc(Log(j.world, Cid(j)), S.OnClientMessage(Cid(j), m.destination, m.requestId, m.content));
    DecodeAllSnoc(j.client.outbox, j.taken);
    ToldStays(j, e, k);
  }

  lemma ServerReadsKeeps(j: Joint, ev: Event)
    requires Inv(j) && ev.ServerReads? && Allowed(j, ev)
    ensures Inv(Next(j, ev))
  {
    hide S.Next, S.Allowed, S.Inv, S.Phase, S.Project, ConnectedFrames, Says, Linked, Quiet, Decode, S.Built,
      S.SingleLine, ToldOk;
    var e, id, k := Reading(j, ev.texts, ev.junk), Cid(j), Next(j, ev);
    S.NextKeeps(j.world, e);
    SeenGrows(j.world, e);
    LinkedStays(j.world, e, j.ws, id);
    PhaseOfView(j.world, j.ws, id);
    PhaseOfView(k.world, j.ws, id);
    HeardText(j);
    if S.Phase(j.world, id) == 1 {
      PendingStepView(j.world, e, j.ws, id);
      if ViewOf(k.world.server, j.ws, id).connection.Some? {
        PromotedKeeps(j, e, k);
        return;
      }
    } else if S.Phase(j.world, id) == 2 {
      ConnectedStepView(j.world, e, j.ws, id);
      if ViewOf(k.world.server, j.ws, id).connection.Some? {
        PostedKeeps(j, e, k);
        return;
      }
    } else {
      UnknownStepView(j.world, e, j.ws, id);
    }
    SameViewIsQuiet(j.world, k.world, j.ws, id);
    QuietKeeps(j, e, k);
  }

  /** What the next text of the outbox says. */
  lemma HeardText(j: Joint)
    requires Inv(j) && j.taken < |j.client.outbox|
    ensures var text := j.client.outbox[j.taken];
            if j.hello && j.taken == 0 then Says(text, F.Stomp) else Says(text, F.Send) && !Says(text, F.Stomp)
  {
    hide S.Inv, S.Phase, S.Project, ConnectedFrames, S.Built, F.Parse;
    if !(j.hello && j.taken == 0) {
      assert Carries(j.client.outbox[j.taken], j.sends[j.taken - Offset(j)]);
    }
  }

  lemma NextKeeps(j: Joint, ev: Event)
    requires Inv(j) && Allowed(j, ev)
    ensures Inv(Next(j, ev))
  {
    hide Inv, Allowed, Next;
    match ev
    case OnServer(_) => ServerStepKeeps(j, ev);
    case ClientOpens(_, _, _) => OpensKeeps(j, ev);
    case ClientSends(_, _, _) => SendsKeeps(j, ev);
    case ServerReads(_, _) => ServerReadsKeeps(j, ev);
    case ClientReads(_) => ClientReadsKeeps(j, ev);
  }

  lemma {:induction false} RunKeeps(j: Joint, events: seq<Event>)
    requires Inv(j) && Run(j, events)
    ensures Inv(After(j, events))
    decreases |events|
  {
    hide Inv, Allowed, Next;
    if events != [] {
      NextKeeps(j, events[0]);
      RunKeeps(Next(j, events[0]), events[1..]);
    }
  }

  // ----- What the client's user and the server's user see -----

  /** In every joint run the client is told at most once that the connection is
      up, and only once the server has promoted that connection and posted it. */
  lemma ToldOnceAfterPromotion(host: string, client: C.ClientState, ws: S.Session, events: seq<Event>)
    requires Run(Begin(host, client, ws), events)
    ensures var j := After(Begin(host, client, ws), events);
            && Told(j.client.posted) <= 1
            && (Told(j.client.posted) == 1 ==>
                  && j.id.Some? && S.Phase(j.world, j.id.value) >= 2
                  && Log(j.world, j.id.value) != []
                  && Log(j.world, j.id.value)[0] == S.OnClientConnect(j.id.value))
  {
    hide S.Inv, S.Phase, S.Project, ConnectedFrames, Says, Carries, Run, After;
    BeginInv(host, client, ws);
    RunKeeps(Begin(host, client, ws), events);
    var j := After(Begin(host, client, ws), events);
    ConnectedFramesPrefix(Wire(j), j.read);
    PhaseOfView(j.world, j.ws, Cid(j));
    if Told(j.client.posted) == 1 {
      FirstCallback(j.world, Cid(j));
      PhaseRange(j.world, Cid(j));
    }
  }

  lemma PhaseRange(w: S.World, id: S.ConnectionId)
    ensures S.Phase(w, id) <= 3
    ensures S.Inv(w) && S.Phase(w, id) <= 1 ==> Log(w, id) == []
  {
    hide S.Project;
    if S.Inv(w) {
      assert S.LogOk(w.server.connections, w.server.sessions, w.server.posted, id);
      assert S.Project(w.server.posted, id) == Log(w, id);
    }
  }

  lemma {:induction false} ProjectAbout(posted: seq<S.Callback>, id: S.ConnectionId)
    ensures forall c :: c in S.Project(posted, id) ==> S.About(c, id)
  {
    if posted != [] {
      ProjectAbout(posted[..|posted| - 1], id);
    }
  }

  lemma FirstCallback(w: S.World, id: S.ConnectionId)
    requires S.Inv(w) && Log(w, id) != []
    ensures Log(w, id)[0] == S.OnClientConnect(id)
  {
    hide S.Project;
    assert S.LogOk(w.server.connections, w.server.sessions, w.server.posted, id);
    ProjectAbout(w.server.posted, id);
    var p := S.Project(w.server.posted, id);
    assert p[0] in p;
  }

  /** The messages posted for the connection stand for the first ones the
      client has sent, in order, and each is unchanged if and only if it was
      sent to a single-line destination; while the connection is up, all that
      is missing is still in the channel. */
  lemma MessagesArriveInOrder(host: string, client: C.ClientState, ws: S.Session, events: seq<Event>)
    requires Run(Begin(host, client, ws), events)
    ensures var j := After(Begin(host, client, ws), events);
            var received := Messages(Log(j.world, Cid(j)));
            && |received| <= |j.sends|
            && (forall k :: 0 <= k < |received| ==>
                  (received[k] == j.sends[k] <==> S.SingleLine(j.sends[k].destination)))
            && (S.Phase(j.world, Cid(j)) == 2 ==> |received| + (|j.client.outbox| - j.taken) == |j.sends|)
  {
    hide S.Inv, S.Phase, S.Project, ConnectedFrames, Says, Run, After, Decode, S.SingleLine, S.Built, Check;
    BeginInv(host, client, ws);
    RunKeeps(Begin(host, client, ws), events);
    var j := After(Begin(host, client, ws), events);
    if j.handled > 0 {
      forall i | 0 <= i < j.handled - 1
        ensures HandledMessages(j)[i] == j.sends[i] <==> S.SingleLine(j.sends[i].destination)
      {
        var text := j.client.outbox[i + 1];
        assert Carries(text, j.sends[i]);
        var junk :| Check(text, junk) == Returned(F.Ok);
        DecodeBuilt(text, j.sends[i], junk);
      }
    }
  }

  /** A valid STOMP frame, from whatever credentials. */
  lemma StompFrameOk(text: string, c: C.ClientState, junk: nat)
    requires S.Built(text, C.StompParts(c))
    requires S.SingleLine(c.url) && S.SingleLine(c.username) && S.SingleLine(c.password)
    ensures F.Parse(text) == F.Parsed(C.StompParts(c)) && Check(text, junk) == Returned(F.Ok)
  {
    hide F.Parse, F.Print;
    var p := C.StompParts(c);
    var lines :| F.Walks(lines, p.headers) && text == F.Print(p.command, lines, p.body);
    S.PlainLiterals();
    F.RoundTrip(p, lines);
  }

  /** With a matching host and valid credentials, an undisturbed handshake ends
      with both users told of the connection. */
  lemma HandshakeConnects(client: C.ClientState, ws: S.Session, id: S.ConnectionId, hello: string,
                          texts: S.FrameTexts, junk: nat)
    requires S.SingleLine(client.url) && S.SingleLine(client.username) && S.SingleLine(client.password)
    requires S.SingleLine(id) && S.Built(hello, C.StompParts(client)) && S.GoodTexts(texts, id)
    ensures var events := [OnServer(S.WsConnect(false, ws, id)), ClientOpens(false, hello, junk),
                           ServerReads(texts, junk), ClientReads(junk)];
            && Run(Begin(client.url, client, ws), events)
            && Told(After(Begin(client.url, client, ws), events).client.posted) == 1
            && After(Begin(client.url, client, ws), events).world.server.posted == [S.OnClientConnect(id)]
  {
    hide F.Parse, Check, S.Built, ConnectedFrames, S.Project, S.SingleLine;
    StompFrameOk(hello, client, junk);
    S.ConnectedFrameOk(texts.connected, id, junk);
    var j0 := Begin(client.url, client, ws);
    var e0, e1 := OnServer(S.WsConnect(false, ws, id)), ClientOpens(false, hello, junk);
    var e2, e3 := ServerReads(texts, junk), ClientReads(junk);
    var j1 := Next(j0, e0);
    assert C.StompParts(j1.client) == C.StompParts(client);
    var j2 := Next(j1, e1);
    assert j2.client.outbox == [hello];
    var j3 := Next(j2, e2);
    assert Wire(j3) == [S.Text(texts.connected)];
    var j4 := Next(j3, e3);
    assert j4.client.posted == [C.OnConnect(C.ClientOk)];
    assert [C.OnConnect(C.ClientOk)][..0] == [];
    RunFour(j0, e0, e1, e2, e3);
  }

  lemma RunFour(j: Joint, e0: Event, e1: Event, e2: Event, e3: Event)
    requires Allowed(j, e0) && Allowed(Next(j, e0), e1) && Allowed(Next(Next(j, e0), e1), e2)
    requires Allowed(Next(Next(Next(j, e0), e1), e2), e3)
    ensures Run(j, [e0, e1, e2, e3])
    ensures After(j, [e0, e1, e2, e3]) == Next(Next(Next(Next(j, e0), e1), e2), e3)
  {
    hide Next, Allowed;
    assert [e0, e1, e2, e3][1..] == [e1, e2, e3] && [e1, e2, e3][1..] == [e2, e3] && [e2, e3][1..] == [e3];
    assert [e3][1..] == [];
    var j3 := Next(Next(Next(j, e0), e1), e2);
    assert Run(j3, [e3]) && After(j3, [e3]) == Next(j3, e3);
    var j2, j1 := Next(Next(j, e0), e1), Next(j, e0);
    assert Run(j2, [e2, e3]) && After(j2, [e2, e3]) == Next(j3, e3);
    assert Run(j1, [e1, e2, e3]) && After(j1, [e1, e2, e3]) == Next(j3, e3);
  }
}
