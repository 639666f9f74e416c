/** What one step of the client comes to, and what its frames say to the server. */
module ClientOutcomes {
  import Decimal
  import F = Frames
  import opened StompFrames
  import S = ServerModel
  import O = ServerOutcomes
  import opened ClientModel
  import J = JointModel
  import R = Replies

  /** A valid CONNECTED frame. */
  ghost predicate Confirms(text: string, junk: nat) {
    Check(text, junk) == Returned(F.Ok) && F.Parse(text).Parsed? && F.Parse(text).value.command == F.Connected
  }

  /** The callback that hearing a text leads to, if any. */
  ghost predicate HearsAs(text: string, junk: nat, callback: ClientCallback) {
    match callback
    case OnConnect(ClientOk) => Confirms(text, junk)
    case OnConnect(CouldNotParseMessageAsStompFrame) =>
      Check(text, junk).Returned? && Check(text, junk) != Returned(F.Ok)
    case OnConnect(_) => false
    case OnMessage(destination, content) => exists id :: O.Tells(text, junk, destination, id, content)
  }

  /** Hearing a text posts exactly the callback it leads to, and does nothing else. */
  lemma HearsExactly(c: ClientState, text: string, junk: nat)
    ensures var after := OnWsMessage(c, text, junk);
            && after == c.(posted := after.posted)
            && (forall callback :: HearsAs(text, junk, callback) <==> after.posted == c.posted + [callback])
            && (after.posted == c.posted || exists callback :: after.posted == c.posted + [callback])
  {
    hide F.Parse, Check, HeaderValue, O.Tells, O.IsMessage;
    O.Kinds("", text, junk);
    OkMeansParsed(text, junk);
    var after := OnWsMessage(c, text, junk);
    if O.IsMessage(text, junk) {
      var p := F.Parse(text).value;
      assert O.Tells(text, junk, HeaderValue(p.headers, F.Destination), HeaderValue(p.headers, F.Id), p.body);
    }
    forall callback ensures HearsAs(text, junk, callback) <==> after.posted == c.posted + [callback] {
      if after.posted == c.posted + [callback] {
        assert after.posted[|c.posted|] == callback;
      }
    }
  }

  /** Once the transport is up, the STOMP frame is sent if it is valid, which it
      is for single-line credentials; otherwise the user is told of an error. */
  lemma OpensExactly(c: ClientState, error: bool, text: string, junk: nat)
    requires S.Built(text, StompParts(c))
    ensures var after := OnWsConnect(c, error, text, junk);
            if error then after == c.(posted := c.posted + [OnConnect(CouldNotConnectToWebSocketServer)])
            else if Check(text, junk) == Returned(F.Ok) then after == c.(outbox := c.outbox + [text])
            else after == c.(posted := c.posted + [OnConnect(UnexpectedCouldNotCreateValidFrame)])
    ensures S.SingleLine(c.url) && S.SingleLine(c.username) && S.SingleLine(c.password) ==>
      Check(text, junk) == Returned(F.Ok)
  {
    hide Check, S.Built, S.SingleLine, StompParts;
    if S.SingleLine(c.url) && S.SingleLine(c.username) && S.SingleLine(c.password) {
      J.StompFrameOk(text, c, junk);
    }
  }

  /** A message is sent, and its id returned, exactly if its frame is valid, which
      it is for a single-line destination; otherwise nothing is sent. */
  lemma SendsExactly(c: ClientState, m: J.Sent, text: string, junk: nat)
    requires S.Built(text, S.SendParts(m.requestId, m.destination, m.content))
    requires S.SingleLine(m.requestId) && |m.content| < Decimal.SIZE_LIMIT
    ensures var (after, returned) := Send(c, m.requestId, text, junk);
            && (returned == m.requestId <==> Check(text, junk) == Returned(F.Ok))
            && (returned == m.requestId ==> after == c.(outbox := c.outbox + [text]))
            && (returned != m.requestId ==> after == c && returned == "")
    ensures S.SingleLine(m.destination) ==> Send(c, m.requestId, text, junk).1 == m.requestId
  {
    hide Check, S.Built, S.SendParts;
    if S.SingleLine(m.destination) {
      R.AlwaysValid(text, m, junk);
    }
  }

  /** What the server reads in the client's STOMP frame. */
  lemma CredentialsAreRead(text: string, c: ClientState)
    requires S.Built(text, StompParts(c))
    requires S.SingleLine(c.url) && S.SingleLine(c.username) && S.SingleLine(c.password)
    ensures F.Parse(text) == F.Parsed(F.Parts(
      F.Stomp,
      map[F.AcceptVersion := "1.2", F.Host := c.url, F.Login := c.username, F.Passcode := c.password],
      ""))
  {
    hide F.Parse, S.Built, S.SingleLine;
    J.StompFrameOk(text, c, 0);
  }

  /** What the client reads in the server's CONNECTED and ERROR frames. */
  lemma AnswersAreRead(texts: S.FrameTexts, id: S.ConnectionId)
    requires S.GoodTexts(texts, id) && S.SingleLine(id)
    ensures F.Parse(texts.connected) ==
      F.Parsed(F.Parts(F.Connected, map[F.Version := "1.2", F.Session := id], ""))
    ensures F.Parse(texts.error) ==
      F.Parsed(F.Parts(F.Error, map[F.ContentType := "text/plain", F.Version := "1.2"], "UnsupportedFrame"))
  {
    hide F.Parse, S.Built, S.SingleLine;
    S.ConnectedFrameOk(texts.connected, id, 0);
    S.ErrorFrameOk(texts.error);
  }

  /** What either side reads in the other's message to a single line. */
  lemma MessageIsRead(text: string, m: J.Sent, junk: nat)
    requires S.Built(text, S.SendParts(m.requestId, m.destination, m.content))
    requires S.SingleLine(m.requestId) && S.SingleLine(m.destination) && |m.content| < Decimal.SIZE_LIMIT
    ensures O.Tells(text, junk, m.destination, m.requestId, m.content)
  {
    hide F.Parse, F.Print, F.Printable, F.Walks, Decimal.Print, Decimal.Read;
    var p := S.SendParts(m.requestId, m.destination, m.content);
    var lines :| F.Walks(lines, p.headers) && text == F.Print(p.command, lines, p.body);
    J.SendIsPrintable(m);
    F.RoundTrip(p, lines);
    R.AlwaysValid(text, m, junk);
  }
}
