/** The other direction: what the server's user sends to the client's connection,
    and what the client's user hears of it. */
module Replies {
  import Decimal
  import F = Frames
  import opened StompFrames
  import S = ServerModel
  import O = ServerOutcomes
  import C = ClientModel
  import opened JointModel

  /** A message that the server's user has sent, and the text of its frame. */
  datatype Reply = Reply(requestId: string, destination: string, content: string, text: string)

  /** What an event sends to the connection of this client: a message for which
      the server returns a request id. */
  function ReplyOf(j: Joint, ev: Event): seq<Reply> {
    if ev.OnServer? && ev.event.UserSend? && ev.event.id == Cid(j) &&
       S.Send(j.world.server, ev.event.id, ev.event.requestId, ev.event.text, ev.event.junk).1 != ""
    then [Reply(ev.event.requestId, ev.event.destination, ev.event.content, ev.event.text)]
    else []
  }

  ghost function Replies(j: Joint, events: seq<Event>): seq<Reply>
    requires Run(j, events)
    decreases |events|
  {
    if events == [] then [] else ReplyOf(j, events[0]) + Replies(Next(j, events[0]), events[1..])
  }

  function Texts(replies: seq<Reply>): seq<string> {
    seq(|replies|, i requires 0 <= i < |replies| => replies[i].text)
  }

  // ----- The messages on the wire -----

  /** The SEND frames among the items of a session. */
  ghost function SendTexts(items: seq<S.WireItem>): seq<string> {
    if items == [] then []
    else
      var item := items[|items| - 1];
      SendTexts(items[..|items| - 1]) + if item.Text? && Says(item.text, F.Send) then [item.text] else []
  }

  lemma SendTextsSnoc(items: seq<S.WireItem>, item: S.WireItem)
    ensures SendTexts(items + [item]) ==
      SendTexts(items) + if item.Text? && Says(item.text, F.Send) then [item.text] else []
  {
    hide Says;
    assert (items + [item])[..|items|] == items;
  }

  lemma {:induction false} SendTextsJoin(a: seq<S.WireItem>, b: seq<S.WireItem>)
    ensures SendTexts(a + b) == SendTexts(a) + SendTexts(b)
    decreases |b|
  {
    hide Says;
    if b == [] {
      assert a + b == a;
    } else {
      var item := b[|b| - 1];
      SendTextsJoin(a, b[..|b| - 1]);
      SendTextsSnoc(a + b[..|b| - 1], item);
      SendTextsSnoc(b[..|b| - 1], item);
      assert a + b == a + b[..|b| - 1] + [item] && b == b[..|b| - 1] + [item];
      var more := if item.Text? && Says(item.text, F.Send) then [item.text] else [];
      assert SendTexts(a) + SendTexts(b[..|b| - 1]) + more == SendTexts(a) + (SendTexts(b[..|b| - 1]) + more);
    }
  }

  /** A frame that is no message and valid whatever an uninitialized length holds. */
  ghost predicate Plain(text: string) {
    !Says(text, F.Send) && forall junk: nat :: Check(text, junk) == Returned(F.Ok)
  }

  ghost predicate MessagesOrPlain(items: seq<S.WireItem>) {
    forall item :: item in items && item.Text? ==> Says(item.text, F.Send) || Plain(item.text)
  }

  lemma BuiltFramesPlain(texts: S.FrameTexts, id: S.ConnectionId)
    requires S.GoodTexts(texts, id) && S.SingleLine(id)
    ensures Plain(texts.error) && Plain(texts.connected)
  {
    hide F.Parse, S.Built;
    S.ErrorFrameOk(texts.error);
    S.ConnectedFrameOk(texts.connected, id, 0);
  }

  lemma SendTextsOfTwo(a: S.WireItem, b: S.WireItem)
    ensures SendTexts([a]) == if a.Text? && Says(a.text, F.Send) then [a.text] else []
    ensures SendTexts([a, b]) == SendTexts([a]) + SendTexts([b])
  {
    hide Says;
    assert [a, b] == [a] + [b] && [a][..0] == [];
    SendTextsJoin([a], [b]);
  }

  /** The only messages the server sends to a session are those of its user. */
  lemma AskedMessages(w: S.World, e: S.Event, ws: S.Session)
    requires S.Inv(w) && S.Allowed(w, e)
    ensures SendTexts(O.Asks(w.server, e, ws)) ==
      if e.UserSend? && O.HasStatus(w.server, ws, S.Connected) && w.server.connections[ws].id == e.id &&
         Check(e.text, e.junk) == Returned(F.Ok) then [e.text] else []
    ensures MessagesOrPlain(O.Asks(w.server, e, ws))
  {
    hide F.Parse, Check, S.Built, S.SingleLine, S.LogOk, S.Project, O.Greets, O.IsMessage, Says, Plain, SendTexts,
      S.SendParts;
    SendTextsOfTwo(S.CloseRequest, S.CloseRequest);
    EmptyTexts();
    if e.WsMessage? && ws in w.server.connections && e.ws == ws {
      var st := w.server;
      S.SafeSession(st.connections, st.sessions, st.posted, w.seen, w.used, ws);
      BuiltFramesPlain(e.texts, st.connections[ws].id);
      PlainIsNoMessage(e.texts.error);
      PlainIsNoMessage(e.texts.connected);
      SendTextsOfTwo(S.Text(e.texts.error), S.CloseRequest);
      SendTextsOfTwo(S.Text(e.texts.connected), S.CloseRequest);
    }
    if e.UserSend? && Check(e.text, e.junk) == Returned(F.Ok) {
      BuiltCommand(e.text, S.SendParts(e.requestId, e.destination, e.content), e.junk);
      SendPartsCommand(e.requestId, e.destination, e.content);
      SendTextsOfTwo(S.Text(e.text), S.CloseRequest);
    }
  }

  lemma SendPartsCommand(requestId: string, destination: string, content: string)
    ensures S.SendParts(requestId, destination, content).command == F.Send
  {
  }

  lemma EmptyTexts()
    ensures SendTexts([]) == []
  {
  }

  lemma PlainIsNoMessage(text: string)
    requires Plain(text)
    ensures !Says(text, F.Send)
  {
  }

  /** One step of the server adds the reply it sends, and no other message. */
  lemma ServerStepReplies(j: Joint, e: S.Event)
    requires Inv(j) && S.Allowed(j.world, e)
    ensures SendTexts(S.WireOf(S.Next(j.world, e).server, j.ws)) == SendTexts(Wire(j)) + Texts(ReplyOf(j, OnServer(e)))
    ensures MessagesOrPlain(Wire(j)) ==> MessagesOrPlain(S.WireOf(S.Next(j.world, e).server, j.ws))
  {
    hide S.Next, S.Allowed, S.LogOk, S.Project, Check, SendTexts, O.Asks, O.PostsCaused, O.ConnectionAfter, Says, Plain,
      OutboxOk, ToldOk, S.Phase, ConnectedFrames, HandledMessages, Messages;
    O.EveryStepExactly(j.world, e);
    AskedMessages(j.world, e, j.ws);
    SendTextsJoin(Wire(j), O.Asks(j.world.server, e, j.ws));
    if e.UserSend? {
      ReplySucceeds(j, e);
    }
  }

  lemma ReplySucceeds(j: Joint, e: S.Event)
    requires Inv(j) && e.UserSend? && S.Allowed(j.world, e)
    ensures ReplyOf(j, OnServer(e)) != [] <==>
      O.HasStatus(j.world.server, j.ws, S.Connected) && j.world.server.connections[j.ws].id == e.id &&
      Check(e.text, e.junk) == Returned(F.Ok)
  {
    hide S.LogOk, S.Project, Check, OutboxOk, ToldOk, S.Phase, ConnectedFrames, HandledMessages, Messages, S.SingleLine,
      S.Built;
  }

  lemma StepReplies(j: Joint, ev: Event)
    requires Inv(j) && Allowed(j, ev)
    ensures SendTexts(Wire(Next(j, ev))) == SendTexts(Wire(j)) + Texts(ReplyOf(j, ev))
    ensures MessagesOrPlain(Wire(j)) ==> MessagesOrPlain(Wire(Next(j, ev)))
  {
    hide S.Next, S.Allowed, S.Inv, Check, SendTexts, Says, Plain, OutboxOk, ToldOk, S.Phase, ConnectedFrames,
      HandledMessages, Messages, Carries, S.Built, MessagesOrPlain;
    match ev
    case OnServer(e) => ServerStepReplies(j, e);
    case ServerReads(texts, junk) =>
      ServerStepReplies(j, Reading(j, texts, junk));
    case _ =>
  }

  // ----- What the client's user hears -----

  /** The callbacks that a message from the server may lead to. */
  function Heard(posted: seq<C.ClientCallback>): seq<C.ClientCallback> {
    if posted == [] then []
    else
      var c := posted[|posted| - 1];
      Heard(posted[..|posted| - 1]) +
      if c.OnMessage? || c == C.OnConnect(C.CouldNotParseMessageAsStompFrame) then [c] else []
  }

  lemma HeardSnoc(posted: seq<C.ClientCallback>, c: C.ClientCallback)
    ensures Heard(posted + [c]) ==
      if c.OnMessage? || c == C.OnConnect(C.CouldNotParseMessageAsStompFrame) then Heard(posted) + [c]
      else Heard(posted)
  {
    assert (posted + [c])[..|posted|] == posted;
    assert Heard(posted) + [] == Heard(posted);
  }

  /** The callback passes on what the text says, or its length was too big. */
  ghost predicate HeardAs(c: C.ClientCallback, text: string) {
    || c == C.OnMessage(Decode(text).destination, Decode(text).content)
    || (c == C.OnConnect(C.CouldNotParseMessageAsStompFrame) &&
        exists junk: nat :: Check(text, junk) != Returned(F.Ok))
  }

  ghost predicate AllHeardAs(heard: seq<C.ClientCallback>, texts: seq<string>) {
    |heard| == |texts| && forall k :: 0 <= k < |heard| ==> HeardAs(heard[k], texts[k])
  }

  ghost predicate HeardOk(j: Joint) {
    && MessagesOrPlain(Wire(j)) && j.read <= |Wire(j)|
    && AllHeardAs(Heard(j.client.posted), SendTexts(Wire(j)[..j.read]))
  }

  /** Reading one text. */
  lemma ReadingHears(c: C.ClientState, text: string, junk: nat)
    requires Says(text, F.Send) || Plain(text)
    ensures var heard, after := Heard(c.posted), Heard(C.OnWsMessage(c, text, junk).posted);
            if Says(text, F.Send) then exists x :: after == heard + [x] && HeardAs(x, text) else after == heard
  {
    hide F.Parse, Check, HeaderValue;
    ParsedIsReturned(text, junk);
    assert Plain(text) ==> Check(text, junk) == Returned(F.Ok);
    OkMeansParsed(text, junk);
    var c' := C.OnWsMessage(c, text, junk);
    if c'.posted != c.posted {
      var x := c'.posted[|c.posted|];
      assert c'.posted == c.posted + [x];
      HeardSnoc(c.posted, x);
    }
  }

  lemma OpeningHearsNothing(c: C.ClientState, error: bool, text: string, junk: nat)
    ensures Heard(C.OnWsConnect(c, error, text, junk).posted) == Heard(c.posted)
  {
    hide Check;
    HeardSnoc(c.posted, C.OnConnect(C.CouldNotConnectToWebSocketServer));
    HeardSnoc(c.posted, C.OnConnect(C.UnexpectedCouldNotCreateValidFrame));
  }

  lemma ReadKeepsHeard(j: Joint, junk: nat)
    requires HeardOk(j) && j.read < |Wire(j)|
    ensures HeardOk(Next(j, ClientReads(junk)))
  {
    hide C.OnWsMessage, SendTexts, Says, Plain, Heard, HeardAs;
    var item, items := Wire(j)[j.read], Wire(j);
    assert items[..j.read + 1] == items[..j.read] + [item];
    SendTextsJoin(items[..j.read], [item]);
    SendTextsOfTwo(item, item);
    assert item in items;
    if item.Text? {
      ReadingHears(j.client, item.text, junk);
    }
  }

  lemma StepKeepsHeard(j: Joint, ev: Event)
    requires Inv(j) && Allowed(j, ev) && HeardOk(j)
    ensures HeardOk(Next(j, ev))
  {
    hide S.Next, S.Allowed, S.Inv, S.Phase, S.Project, Check, SendTexts, Says, Plain, Heard, HeardAs, ConnectedFrames,
      S.Built, C.OnWsConnect, C.OnWsMessage, OutboxOk, ServerOk, MessagesOrPlain;
    StepReplies(j, ev);
    match ev
    case OnServer(e) =>
      WireGrows(j.world, e, j.ws);
      assert Wire(Next(j, ev))[..j.read] == Wire(j)[..j.read];
    case ServerReads(texts, junk) =>
      WireGrows(j.world, Reading(j, texts, junk), j.ws);
      assert Wire(Next(j, ev))[..j.read] == Wire(j)[..j.read];
    case ClientOpens(error, text, junk) => OpeningHearsNothing(j.client, error, text, junk);
    case ClientSends(_, _, _) =>
    case ClientReads(junk) => ReadKeepsHeard(j, junk);
  }

  // ----- Every joint run -----

  /** A reply's text is a valid frame of its message. */
  ghost predicate ReplyOk(r: Reply) {
    && S.Built(r.text, S.SendParts(r.requestId, r.destination, r.content))
    && exists junk: nat :: Check(r.text, junk) == Returned(F.Ok)
  }

  lemma ReplyOfOk(j: Joint, ev: Event)
    requires Allowed(j, ev)
    ensures forall r :: r in ReplyOf(j, ev) ==> ReplyOk(r)
  {
    hide Check, S.Built;
  }

  lemma {:induction false} RunReplies(j: Joint, events: seq<Event>)
    requires Inv(j) && Run(j, events)
    ensures SendTexts(Wire(After(j, events))) == SendTexts(Wire(j)) + Texts(Replies(j, events))
    decreases |events|
  {
    hide Inv, Allowed, Next, SendTexts, ReplyOf, Wire, Texts;
    if events != [] {
      var k, r := Next(j, events[0]), ReplyOf(j, events[0]);
      NextKeeps(j, events[0]);
      StepReplies(j, events[0]);
      RunReplies(k, events[1..]);
      TextsJoin(r, Replies(k, events[1..]));
      Regroup(SendTexts(Wire(j)), Texts(r), Texts(Replies(k, events[1..])));
    } else {
      NoTexts(SendTexts(Wire(j)));
    }
  }

  lemma Regroup(a: seq<string>, b: seq<string>, c: seq<string>)
    ensures a + b + c == a + (b + c)
  {
  }

  lemma {:induction false} RunHears(j: Joint, events: seq<Event>)
    requires Inv(j) && HeardOk(j) && Run(j, events)
    ensures HeardOk(After(j, events))
    decreases |events|
  {
    hide Inv, Allowed, Next, HeardOk;
    if events != [] {
      NextKeeps(j, events[0]);
      StepKeepsHeard(j, events[0]);
      RunHears(Next(j, events[0]), events[1..]);
    }
  }

  lemma {:induction false} RepliesOk(j: Joint, events: seq<Event>)
    requires Run(j, events)
    ensures forall r :: r in Replies(j, events) ==> ReplyOk(r)
    decreases |events|
  {
    hide Allowed, Next, ReplyOf, ReplyOk;
    if events != [] {
      ReplyOfOk(j, events[0]);
      RepliesOk(Next(j, events[0]), events[1..]);
    }
  }

  lemma TextsJoin(a: seq<Reply>, b: seq<Reply>)
    ensures Texts(a + b) == Texts(a) + Texts(b)
  {
  }

  lemma NoTexts(texts: seq<string>)
    ensures texts + Texts([]) == texts
  {
  }

  /** A frame of a printable message is valid, whatever an uninitialized length holds. */
  lemma AlwaysValid(text: string, m: Sent, junk: nat)
    requires S.Built(text, S.SendParts(m.requestId, m.destination, m.content))
    requires S.SingleLine(m.requestId) && S.SingleLine(m.destination) && |m.content| < Decimal.SIZE_LIMIT
    ensures Check(text, junk) == Returned(F.Ok)
  {
    hide F.Parse, F.Print, F.Printable, F.Walks, Decimal.Print, Decimal.Read;
    var p := S.SendParts(m.requestId, m.destination, m.content);
    var lines :| F.Walks(lines, p.headers) && text == F.Print(p.command, lines, p.body);
    SendIsPrintable(m);
    F.RoundTrip(p, lines);
    Decimal.ReadPrint(|m.content|);
  }

  /** A message arrives unchanged if and only if it is sent to a single line. */
  lemma ReplyArrives(r: Reply, c: C.ClientCallback)
    requires ReplyOk(r) && HeardAs(c, r.text) && S.SingleLine(r.requestId) && |r.content| < Decimal.SIZE_LIMIT
    ensures c == C.OnMessage(r.destination, r.content) <==> S.SingleLine(r.destination)
  {
    hide Check, S.Built, S.SingleLine, S.SendParts, Decode;
    var junk: nat :| Check(r.text, junk) == Returned(F.Ok);
    var m := Sent(r.requestId, r.destination, r.content);
    DecodeBuilt(r.text, m, junk);
    if S.SingleLine(r.destination) {
      forall n: nat ensures Check(r.text, n) == Returned(F.Ok) {
        AlwaysValid(r.text, m, n);
      }
    } else {
      BuiltCommand(r.text, S.SendParts(r.requestId, r.destination, r.content), junk);
      SendPartsCommand(r.requestId, r.destination, r.content);
      DestinationIsOneLine(r.text, junk);
    }
  }

  /** In every joint run, what the client's user hears of the server's messages
      stands for the first ones that the server's user has sent to its connection
      with success, in order, and the others are still in the channel. Each is
      heard unchanged if and only if it was sent to a single-line destination. */
  lemma RepliesArriveInOrder(host: string, client: C.ClientState, ws: S.Session, events: seq<Event>)
    requires Run(Begin(host, client, ws), events)
    ensures var j := After(Begin(host, client, ws), events);
            var heard, replies := Heard(j.client.posted), Replies(Begin(host, client, ws), events);
            && j.read <= |Wire(j)|
            && |heard| + |SendTexts(Wire(j)[j.read..])| == |replies|
            && forall k :: 0 <= k < |heard| && S.SingleLine(replies[k].requestId) &&
                           |replies[k].content| < Decimal.SIZE_LIMIT ==>
                 (heard[k] == C.OnMessage(replies[k].destination, replies[k].content) <==>
                    S.SingleLine(replies[k].destination))
  {
    hide Run, After, Replies, Inv, ReplyOk, HeardAs, Heard, S.SingleLine, MessagesOrPlain, SendTexts;
    var j0 := Begin(host, client, ws);
    BeginInv(host, client, ws);
    NothingHeard(host, client, ws);
    RunReplies(j0, events);
    RunHears(j0, events);
    RepliesOk(j0, events);
    var j, replies := After(j0, events), Replies(j0, events);
    var heard, items := Heard(j.client.posted), Wire(j);
    assert items == items[..j.read] + items[j.read..];
    SendTextsJoin(items[..j.read], items[j.read..]);
    assert SendTexts(items) == Texts(replies);
    forall k | 0 <= k < |heard| && S.SingleLine(replies[k].requestId) && |replies[k].content| < Decimal.SIZE_LIMIT
      ensures heard[k] == C.OnMessage(replies[k].destination, replies[k].content) <==>
              S.SingleLine(replies[k].destination)
    {
      assert SendTexts(items[..j.read])[k] == Texts(replies)[k];
      ReplyArrives(replies[k], heard[k]);
    }
  }

  lemma NothingHeard(host: string, client: C.ClientState, ws: S.Session)
    ensures HeardOk(Begin(host, client, ws)) && SendTexts(Wire(Begin(host, client, ws))) == []
  {
  }
}
