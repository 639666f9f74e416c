/** The server object: its handlers, proved against ServerModel. */
module StompServers {
  import F = Frames
  import opened StompFrames
  import M = ServerModel

  lemma TextExists(p: F.Parts) returns (text: string)
    ensures M.Built(text, p)
  {
    var lines := F.WalkExists(p.headers);
    text := F.Print(p.command, lines, p.body);
  }

  class StompServer {
    const host: string
    var connections: map<M.Session, M.Connection>
    var sessions: map<M.ConnectionId, M.Session>
    /** The queue of posted user callbacks, and what was asked of each session. */
    var posted: seq<M.Callback>
    var wire: map<M.Session, seq<M.WireItem>>

    /** The two maps are exact inverses. */
    ghost predicate Valid()
      reads this
    {
      M.Inverse(connections, sessions)
    }

    function State(): M.ServerState
      reads this
    {
      M.ServerState(host, connections, sessions, posted, wire)
    }

    constructor (host: string)
      ensures Valid() && State() == M.Start(host)
    {
      this.host := host;
      connections, sessions, posted, wire := map[], map[], [], map[];
    }

    method AskSession(ws: M.Session, item: M.WireItem)
      requires Valid()
      modifies this`wire
      ensures Valid() && State() == M.Push(old(State()), ws, item)
    {
      wire := wire[ws := (if ws in wire then wire[ws] else []) + [item]];
    }

    /** The transport announces a session once, and generated ids are new. */
    method OnWsSessionConnect(error: bool, ws: M.Session, newId: M.ConnectionId)
      requires Valid() && (!error ==> ws !in connections && newId !in sessions)
      modifies this
      ensures Valid() && State() == M.OnWsSessionConnect(old(State()), error, ws, newId)
    {
      if error {
        AskSession(ws, M.CloseRequest);
        return;
      }
      M.InverseRegister(connections, sessions, ws, newId);
      var connection := M.Connection(newId, M.Pending);
      sessions := sessions[connection.id := ws];
      connections := connections[ws := connection];
    }

    /** Builds the ERROR frame. It names one error, whatever went wrong. */
    method MakeErrorFrame(junk: nat) returns (text: string)
      ensures M.Built(text, M.ErrorParts())
    {
      var p := M.ErrorParts();
      var frame, code := StompFrame.FromComponents(p.command, p.headers, p.body, junk);
      return frame.plain;
    }

    method CloseConnection(id: M.ConnectionId, ws: M.Session, report: bool, junk: nat) returns (ghost errorText: string)
      requires Valid() && ws in connections && connections[ws].id == id
      modifies this
      ensures M.Built(errorText, M.ErrorParts())
      ensures Valid() && State() == M.CloseConnection(old(State()), id, ws, report, errorText)
    {
      M.InverseForget(connections, sessions, ws);
      sessions := sessions - {id};
      connections := connections - {ws};
      errorText := TextExists(M.ErrorParts());
      if report {
        var text := MakeErrorFrame(junk);
        errorText := text;
        AskSession(ws, M.Text(text));
      }
      AskSession(ws, M.CloseRequest);
    }

    method HandleStomp(ws: M.Session, frame: StompFrame, junk: nat) returns (ghost texts: M.FrameTexts)
      requires Valid() && ws in connections
      modifies this
      ensures M.GoodTexts(texts, old(connections)[ws].id)
      ensures Valid() && State() == M.HandleStomp(old(State()), ws, old(frame.Parts()), texts, junk)
    {
      hide Check, M.Built;
      var id := connections[ws].id;
      ghost var errorText := TextExists(M.ErrorParts());
      ghost var connectedText := TextExists(M.ConnectedParts(id));
      texts := M.FrameTexts(errorText, connectedText);
      var version := HeaderValue(frame.headers, F.AcceptVersion);
      if version != M.VERSION {
        errorText := CloseConnection(id, ws, true, junk);
        texts := M.FrameTexts(errorText, connectedText);
        return;
      }
      var frameHost := HeaderValue(frame.headers, F.Host);
      if frameHost != host {
        errorText := CloseConnection(id, ws, true, junk);
        texts := M.FrameTexts(errorText, connectedText);
        return;
      }
      if connections[ws].status != M.Pending {
        errorText := CloseConnection(id, ws, true, junk);
        texts := M.FrameTexts(errorText, connectedText);
        return;
      }
      M.InversePromote(connections, sessions, ws);
      connections := connections[ws := M.Connection(id, M.Connected)];
      var p := M.ConnectedParts(id);
      var text, code := BuildFrame(p, junk);
      texts := M.FrameTexts(errorText, text);
      if code != Returned(F.Ok) {
        return;
      }
      AskSession(ws, M.Text(text));
      posted := posted + [M.OnClientConnect(id)];
    }

    method BuildFrame(p: F.Parts, junk: nat) returns (text: string, code: Code)
      ensures M.Built(text, p) && code == Check(text, junk)
    {
      hide Check;
      var frame;
      frame, code := StompFrame.FromComponents(p.command, p.headers, p.body, junk);
      text := frame.plain;
    }

    method HandleSend(ws: M.Session, frame: StompFrame, junk: nat)
      requires Valid() && ws in connections
      modifies this
      ensures Valid() && State() == M.HandleSend(old(State()), ws, old(frame.Parts()))
    {
      var id := connections[ws].id;
      if connections[ws].status != M.Connected {
        ghost var _ := CloseConnection(id, ws, false, junk);
        return;
      }
      posted := posted + [M.OnClientMessage(id, HeaderValue(frame.headers, F.Destination),
                                            HeaderValue(frame.headers, F.Id), frame.body)];
    }

    /** A message from a session; a frame whose parsing throws leaves the
        handler by an exception. */
    method OnWsSessionMessage(error: bool, ws: M.Session, msg: string, junk: nat)
      returns (threw: bool, ghost texts: M.FrameTexts)
      requires Valid()
      modifies this
      ensures ws in old(connections) ==> M.GoodTexts(texts, old(connections)[ws].id)
      ensures Valid() && State() == M.OnWsSessionMessage(old(State()), error, ws, msg, texts, junk)
      ensures threw <==> ws in old(connections) && !error && F.Parse(msg).Thrown?
    {
      hide F.Parse, M.Built, F.Validate;
      threw := false;
      texts := M.FrameTexts("", "");
      if ws !in connections {
        AskSession(ws, M.CloseRequest);
        return;
      }
      var id := connections[ws].id;
      ghost var errorText := TextExists(M.ErrorParts());
      ghost var connectedText := TextExists(M.ConnectedParts(id));
      texts := M.FrameTexts(errorText, connectedText);
      if error {
        return;
      }
      var frame, code := StompFrame.FromText(msg, junk);
      if code == Threw {
        return true, texts;
      }
      if code != Returned(F.Ok) {
        errorText := CloseConnection(id, ws, true, junk);
        texts := M.FrameTexts(errorText, connectedText);
        return;
      }
      OkMeansParsed(msg, junk);
      match frame.command {
        case Stomp =>
          texts := HandleStomp(ws, frame, junk);
        case Send =>
          HandleSend(ws, frame, junk);
        case _ =>
          errorText := CloseConnection(id, ws, true, junk);
          texts := M.FrameTexts(errorText, connectedText);
      }
    }

    method OnWsSessionDisconnect(error: bool, ws: M.Session)
      requires Valid()
      modifies this
      ensures Valid() && State() == M.OnWsSessionDisconnect(old(State()), error, ws)
    {
      if ws !in connections {
        return;
      }
      M.InverseForget(connections, sessions, ws);
      var id, status := connections[ws].id, connections[ws].status;
      sessions := sessions - {id};
      connections := connections - {ws};
      if status == M.Connected {
        posted := posted + [M.OnClientDisconnect(id, !error)];
      }
    }

    method OnWsDisconnect(error: bool)
      requires Valid()
      modifies this`posted
      ensures Valid() && State() == M.OnWsDisconnect(old(State()), error)
    {
      posted := posted + [M.OnDisconnect(!error)];
    }

    /** Sends a message to a client. `newId` is used if the caller gives no
        request id of its own. A session without a connection cannot come up,
        so this succeeds exactly for a connected client and a valid frame. */
    method Send(id: M.ConnectionId, destination: string, content: string, userRequestId: string, newId: string,
                junk: nat)
      returns (requestId: string, ghost text: string)
      requires Valid()
      modifies this`wire
      ensures Valid()
      ensures var rid := if userRequestId == "" then newId else userRequestId;
              && M.Built(text, M.SendParts(rid, destination, content))
              && (State(), requestId) == M.Send(old(State()), id, rid, text, junk)
              && (requestId != "" <==>
                    && id in sessions && connections[sessions[id]].status == M.Connected
                    && rid != "" && Check(text, junk) == Returned(F.Ok))
      ensures requestId == "" && (userRequestId != "" || newId != "") ==> State() == old(State())
      ensures requestId != "" ==>
        wire == old(wire)[sessions[id] := M.WireOf(old(State()), sessions[id]) + [M.Text(text)]]
    {
      hide Check, M.Built;
      ghost var rid := if userRequestId == "" then newId else userRequestId;
      text := TextExists(M.SendParts(rid, destination, content));
      if id !in sessions {
        return "", text;
      }
      var ws := sessions[id];
      if ws !in connections {
        assert false;
      }
      if connections[ws].status != M.Connected {
        return "", text;
      }
      requestId := if userRequestId == "" then newId else userRequestId;
      var plain, code := BuildFrame(M.SendParts(requestId, destination, content), junk);
      text := plain;
      if code != Returned(F.Ok) {
        return "", text;
      }
      AskSession(ws, M.Text(plain));
    }

    /** Closes the connection of a client, whatever its state. */
    method Close(id: M.ConnectionId, junk: nat)
      requires Valid()
      modifies this
      ensures Valid() && State() == M.Close(old(State()), id)
      ensures id !in sessions && (id !in old(sessions) ==> State() == old(State()))
    {
      if id !in sessions {
        return;
      }
      var ws := sessions[id];
      if ws !in connections {
        assert false;
      }
      ghost var _ := CloseConnection(connections[ws].id, ws, false, junk);
    }

    method Stop()
      requires Valid()
      modifies this
      ensures Valid() && State() == M.Stop(old(State()))
    {
      hide M.Inverse;
      var rest := connections.Keys;
      while rest != {}
        invariant rest <= connections.Keys && Valid()
        invariant connections == old(connections) && sessions == old(sessions) && posted == old(posted)
        invariant Asked(old(wire), wire, connections.Keys - rest)
        decreases rest
      {
        var ws :| ws in rest;
        rest := rest - {ws};
        AskSession(ws, M.CloseRequest);
      }
      StopAsked(old(State()), wire);
      connections, sessions := map[], map[];
    }
  }

  /** The sessions `done` have been asked to close. */
  ghost predicate Asked(before: map<M.Session, seq<M.WireItem>>, after: map<M.Session, seq<M.WireItem>>,
                        done: set<M.Session>)
  {
    && after.Keys == before.Keys + done
    && forall ws :: ws in after ==>
         after[ws] == (if ws in before then before[ws] else []) + if ws in done then [M.CloseRequest] else []
  }

  lemma StopAsked(st: M.ServerState, after: map<M.Session, seq<M.WireItem>>)
    requires Asked(st.wire, after, st.connections.Keys)
    ensures M.Stop(st).wire == after
    ensures M.Inverse(map[], map[])
  {
  }
}
