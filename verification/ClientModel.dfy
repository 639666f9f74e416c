/** The STOMP client as the server's peer: one function per handler. */
module ClientModel {
  import F = Frames
  import opened StompFrames
  import S = ServerModel

  datatype ClientError =
    | ClientOk | CouldNotConnectToWebSocketServer | CouldNotParseMessageAsStompFrame
    | CouldNotSendStompFrame | UnexpectedCouldNotCreateValidFrame

  datatype ClientCallback =
    | OnConnect(error: ClientError)
    | OnMessage(destination: string, content: string)

  /** `outbox` holds the texts handed to the WebSocket connection, in order. */
  datatype ClientState = ClientState(
    url: string, username: string, password: string, posted: seq<ClientCallback>, outbox: seq<string>)

  function StompParts(c: ClientState): F.Parts {
    F.Parts(
      F.Stomp,
      map[F.AcceptVersion := S.VERSION, F.Host := c.url, F.Login := c.username, F.Passcode := c.password],
      "")
  }

  function Post(c: ClientState, callback: ClientCallback): ClientState {
    c.(posted := c.posted + [callback])
  }

  function OnWsConnect(c: ClientState, error: bool, text: string, junk: nat): ClientState {
    if error then Post(c, OnConnect(CouldNotConnectToWebSocketServer))
    else if Check(text, junk) != Returned(F.Ok) then Post(c, OnConnect(UnexpectedCouldNotCreateValidFrame))
    else c.(outbox := c.outbox + [text])
  }

  function OnWsSendStomp(c: ClientState, error: bool): ClientState {
    if error then Post(c, OnConnect(CouldNotSendStompFrame)) else c
  }

  function OnWsMessage(c: ClientState, msg: string, junk: nat): ClientState {
    match Check(msg, junk)
    case Threw => c
    case Returned(e) =>
      if e != F.Ok || !F.Parse(msg).Parsed? then Post(c, OnConnect(CouldNotParseMessageAsStompFrame))
      else
        var p := F.Parse(msg).value;
        if p.command == F.Connected then Post(c, OnConnect(ClientOk))
        else if p.command == F.Send then Post(c, OnMessage(HeaderValue(p.headers, F.Destination), p.body))
        else c
  }

  /** Sending a message; the result is the request id, empty on failure. */
  function Send(c: ClientState, requestId: string, text: string, junk: nat): (ClientState, string) {
    if Check(text, junk) != Returned(F.Ok) then (c, "")
    else (c.(outbox := c.outbox + [text]), requestId)
  }
}
