/** The client object: its handlers, proved against ClientModel. */
module StompClients {
  import F = Frames
  import opened StompFrames
  import S = ServerModel
  import M = ClientModel

  class StompClient {
    const url: string
    var username: string
    var password: string
    var posted: seq<M.ClientCallback>
    var outbox: seq<string>

    function State(): M.ClientState
      reads this
    {
      M.ClientState(url, username, password, posted, outbox)
    }

    constructor (url: string)
      ensures State() == M.ClientState(url, "", "", [], [])
    {
      this.url := url;
      username, password, posted, outbox := "", "", [], [];
    }

    /** Remembers the credentials; the WebSocket connection is opened next. */
    method Connect(username: string, password: string)
      modifies this
      ensures State() == old(State()).(username := username, password := password)
    {
      this.username, this.password := username, password;
    }

    method BuildFrame(p: F.Parts, junk: nat) returns (text: string, code: Code)
      ensures S.Built(text, p) && code == Check(text, junk)
    {
      hide Check;
      var frame;
      frame, code := StompFrame.FromComponents(p.command, p.headers, p.body, junk);
      text := frame.plain;
    }

    method OnWsConnect(error: bool, junk: nat) returns (ghost text: string)
      modifies this
      ensures !error ==> S.Built(text, M.StompParts(old(State())))
      ensures State() == M.OnWsConnect(old(State()), error, text, junk)
    {
      hide Check, S.Built;
      text := "";
      if error {
        posted := posted + [M.OnConnect(M.CouldNotConnectToWebSocketServer)];
        return;
      }
      var plain, code := BuildFrame(M.StompParts(State()), junk);
      text := plain;
      if code != Returned(F.Ok) {
        posted := posted + [M.OnConnect(M.UnexpectedCouldNotCreateValidFrame)];
        return;
      }
      outbox := outbox + [plain];
    }

    method OnWsSendStomp(error: bool)
      modifies this
      ensures State() == M.OnWsSendStomp(old(State()), error)
    {
      if error {
        posted := posted + [M.OnConnect(M.CouldNotSendStompFrame)];
      }
    }

    /** A message from the server. The WebSocket error code is not looked at. */
    method OnWsMessage(msg: string, junk: nat) returns (threw: bool)
      modifies this
      ensures State() == M.OnWsMessage(old(State()), msg, junk)
      ensures threw <==> F.Parse(msg).Thrown?
    {
      hide F.Parse, F.Validate;
      var frame, code := StompFrame.FromText(msg, junk);
      if code == Threw {
        return true;
      }
      if code != Returned(F.Ok) {
        posted := posted + [M.OnConnect(M.CouldNotParseMessageAsStompFrame)];
        return false;
      }
      OkMeansParsed(msg, junk);
      match frame.command {
        case Connected =>
          posted := posted + [M.OnConnect(M.ClientOk)];
        case Send =>
          posted := posted + [M.OnMessage(HeaderValue(frame.headers, F.Destination), frame.body)];
        case _ =>
      }
      return false;
    }

    method Send(destination: string, content: string, newId: string, junk: nat)
      returns (requestId: string, ghost text: string)
      modifies this
      ensures S.Built(text, S.SendParts(newId, destination, content))
      ensures (State(), requestId) == M.Send(old(State()), newId, text, junk)
    {
      hide Check, S.Built;
      var plain, code := BuildFrame(S.SendParts(newId, destination, content), junk);
      text := plain;
      if code != Returned(F.Ok) {
        return "", text;
      }
      outbox := outbox + [plain];
      requestId := newId;
    }
  }
}
