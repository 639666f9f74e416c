/** STOMP frames as text: printing, parsing and validating them. */
module Frames {
  import Decimal

  const NUL: char := '\0'
  const COLON: char := ':'
  const NEW_LINE: char := '\n'

  datatype StompCommand =
    | Invalid | Abort | Ack | Begin | Commit | Connect | Connected | Disconnect | Error
    | Message | Nack | Receipt | Send | Stomp | Subscribe | Unsubscribe

  datatype StompHeader =
    | InvalidHeader | AcceptVersion | AckHeader | ContentLength | ContentType | Destination | HeartBeat
    | Host | Id | Login | MessageHeader | MessageId | Passcode | ReceiptHeader | ReceiptId | Session
    | Subscription | Transaction | Server | Version

  datatype StompError =
    | Ok | UndefinedError | ParsingEmptyHeaderValue | ParsingContentLengthExceedsFrameLength
    | ParsingInvalidContentLength | ParsingJunkAfterBody | ParsingMissingBlankLineAfterHeaders
    | ParsingMissingColonInHeader | ParsingMissingEolAfterCommand | ParsingMissingEolAfterHeaderValue
    | ParsingMissingNullInBody | ParsingUnrecognizedCommand | ParsingUnrecognizedHeader
    | ValidationContentLengthMismatch | ValidationInvalidCommand | ValidationInvalidContentLength
    | ValidationMissingHeader

  type Headers = map<StompHeader, string>

  /** A header line as printed or found in a frame. */
  datatype HeaderLine = HeaderLine(header: StompHeader, value: string)

  // ----- Names -----

  function CommandText(c: StompCommand): string {
    match c
    case Invalid => "StompCommand::kInvalid"
    case Abort => "ABORT"
    case Ack => "ACK"
    case Begin => "BEGIN"
    case Commit => "COMMIT"
    case Connect => "CONNECT"
    case Connected => "CONNECTED"
    case Disconnect => "DISCONNECT"
    case Error => "ERROR"
    case Message => "MESSAGE"
    case Nack => "NACK"
    case Receipt => "RECEIPT"
    case Send => "SEND"
    case Stomp => "STOMP"
    case Subscribe => "SUBSCRIBE"
    case Unsubscribe => "UNSUBSCRIBE"
  }

  function ToCommand(s: string): StompCommand {
    if s == "ABORT" then Abort
    else if s == "ACK" then Ack
    else if s == "BEGIN" then Begin
    else if s == "COMMIT" then Commit
    else if s == "CONNECT" then Connect
    else if s == "CONNECTED" then Connected
    else if s == "DISCONNECT" then Disconnect
    else if s == "ERROR" then Error
    else ToLaterCommand(s)
  }

  /** The second half of the command table. */
  function ToLaterCommand(s: string): StompCommand {
    if s == "MESSAGE" then Message
    else if s == "NACK" then Nack
    else if s == "RECEIPT" then Receipt
    else if s == "SEND" then Send
    else if s == "STOMP" then Stomp
    else if s == "SUBSCRIBE" then Subscribe
    else if s == "UNSUBSCRIBE" then Unsubscribe
    else Invalid
  }

  /** The table of header names, in two halves. */
  predicate EarlierHeader(h: StompHeader) {
    h in {AcceptVersion, AckHeader, ContentLength, ContentType, Destination, HeartBeat, Host, Id, Login}
  }

  predicate LaterHeader(h: StompHeader) {
    h != InvalidHeader && !EarlierHeader(h)
  }

  function EarlierHeaderText(h: StompHeader): string
    requires EarlierHeader(h)
  {
    match h
    case AcceptVersion => "accept-version"
    case AckHeader => "ack"
    case ContentLength => "content-length"
    case ContentType => "content-type"
    case Destination => "destination"
    case HeartBeat => "heart-beat"
    case Host => "host"
    case Id => "id"
    case Login => "login"
  }

  function LaterHeaderText(h: StompHeader): string
    requires LaterHeader(h)
  {
    match h
    case MessageHeader => "message"
    case MessageId => "message-id"
    case Passcode => "passcode"
    case ReceiptHeader => "receipt"
    case ReceiptId => "receipt-id"
    case Session => "session"
    case Subscription => "subscription"
    case Transaction => "transaction"
    case Server => "server"
    case Version => "version"
  }

  function HeaderText(h: StompHeader): string {
    if h == InvalidHeader then "StompHeader::kInvalid"
    else if EarlierHeader(h) then EarlierHeaderText(h)
    else LaterHeaderText(h)
  }

  function ToEarlierHeader(s: string): StompHeader {
    if s == "accept-version" then AcceptVersion
    else if s == "ack" then AckHeader
    else if s == "content-length" then ContentLength
    else if s == "content-type" then ContentType
    else if s == "destination" then Destination
    else if s == "heart-beat" then HeartBeat
    else if s == "host" then Host
    else if s == "id" then Id
    else if s == "login" then Login
    else InvalidHeader
  }

  function ToLaterHeader(s: string): StompHeader {
    if s == "message" then MessageHeader
    else if s == "message-id" then MessageId
    else if s == "passcode" then Passcode
    else if s == "receipt" then ReceiptHeader
    else if s == "receipt-id" then ReceiptId
    else if s == "session" then Session
    else if s == "subscription" then Subscription
    else if s == "transaction" then Transaction
    else if s == "server" then Server
    else if s == "version" then Version
    else InvalidHeader
  }

  function ToHeader(s: string): StompHeader {
    var h := ToEarlierHeader(s);
    if h != InvalidHeader then h else ToLaterHeader(s)
  }

  /** No name contains a delimiter. Length and first letter tell all names apart. */
  lemma CommandNames(c: StompCommand)
    ensures NEW_LINE !in CommandText(c) && CommandText(c) != ""
    ensures ToCommand(CommandText(c)) == c
  {
    var s := CommandText(c);
    assert |s| > 0 && s[0] == s[0];
  }

  lemma LaterCommandOfText(s: string)
    ensures ToLaterCommand(s) != Invalid ==> CommandText(ToLaterCommand(s)) == s
  {
  }

  lemma CommandOfText(s: string)
    ensures ToCommand(s) != Invalid ==> CommandText(ToCommand(s)) == s
  {
    hide ToLaterCommand;
    LaterCommandOfText(s);
  }

  lemma HeaderNames(h: StompHeader)
    ensures NEW_LINE !in HeaderText(h) && HeaderText(h) != ""
    ensures h != InvalidHeader ==> COLON !in HeaderText(h)
    ensures ToHeader(HeaderText(h)) == h
  {
    hide EarlierHeader, EarlierHeaderText, LaterHeaderText, ToEarlierHeader, ToLaterHeader;
    if EarlierHeader(h) {
      EarlierHeaderNames(h);
    } else if LaterHeader(h) {
      LaterHeaderNames(h);
      EarlierHeaderOfText(LaterHeaderText(h));
    } else {
      InvalidHeaderName();
    }
  }

  /** The first letter tells the halves of the table apart. */
  predicate EarlierLetter(c: char) {
    c in {'a', 'c', 'd', 'h', 'i', 'l'}
  }

  lemma EarlierHeaderNames(h: StompHeader)
    requires EarlierHeader(h)
    ensures NEW_LINE !in EarlierHeaderText(h) && EarlierHeaderText(h) != "" && COLON !in EarlierHeaderText(h)
    ensures ToEarlierHeader(EarlierHeaderText(h)) == h != InvalidHeader
  {
    var s := EarlierHeaderText(h);
    assert |s| > 0 && s[0] == s[0];
  }

  lemma LaterHeaderNames(h: StompHeader)
    requires LaterHeader(h)
    ensures NEW_LINE !in LaterHeaderText(h) && COLON !in LaterHeaderText(h)
    ensures LaterHeaderText(h) != "" && !EarlierLetter(LaterHeaderText(h)[0])
    ensures ToLaterHeader(LaterHeaderText(h)) == h
  {
    var s := LaterHeaderText(h);
    assert |s| > 0 && s[0] == s[0];
  }

  lemma InvalidHeaderName()
    ensures NEW_LINE !in HeaderText(InvalidHeader) && HeaderText(InvalidHeader) != ""
    ensures ToHeader(HeaderText(InvalidHeader)) == InvalidHeader
  {
    var s := HeaderText(InvalidHeader);
    assert s[0] == 'S';
  }

  lemma EarlierHeaderOfText(s: string)
    ensures var h := ToEarlierHeader(s);
            h == InvalidHeader ||
            (EarlierHeader(h) && EarlierHeaderText(h) == s && s != "" && EarlierLetter(s[0]))
  {
  }

  lemma LaterHeaderOfText(s: string)
    ensures var h := ToLaterHeader(s); h == InvalidHeader || (LaterHeader(h) && LaterHeaderText(h) == s)
  {
  }

  lemma HeaderOfText(s: string)
    ensures ToHeader(s) != InvalidHeader ==> HeaderText(ToHeader(s)) == s
  {
    hide EarlierHeader, EarlierHeaderText, LaterHeaderText, ToEarlierHeader, ToLaterHeader;
    EarlierHeaderOfText(s);
    LaterHeaderOfText(s);
  }

  // ----- Printing -----

  function PrintLine(l: HeaderLine): string {
    HeaderText(l.header) + [COLON] + l.value + [NEW_LINE]
  }

  function PrintLines(lines: seq<HeaderLine>): string {
    if lines == [] then [] else PrintLine(lines[0]) + PrintLines(lines[1..])
  }

  /** The text of a frame whose header map is walked in the order `lines`. */
  function Print(c: StompCommand, lines: seq<HeaderLine>, body: string): string {
    CommandText(c) + [NEW_LINE] + PrintLines(lines) + [NEW_LINE] + body + [NUL]
  }

  // ----- Parsing, as the parser's branches go -----

  /** The first position of a character, or the length of the text. */
  function Index(s: string, c: char): (k: nat)
    ensures k <= |s| && c !in s[..k] && (k < |s| ==> s[k] == c)
  {
    if s == [] || s[0] == c then 0
    else
      var k := Index(s[1..], c);
      assert s[..k + 1] == [s[0]] + s[1..][..k];
      k + 1
  }

  /** Parsing succeeds, is refused with an error, or throws out of range. */
  datatype Outcome<+T> = Parsed(value: T) | Rejected(error: StompError) | Thrown

  datatype Parts = Parts(command: StompCommand, headers: Headers, body: string)

  /** The headers found so far and the text from the blank line on. */
  datatype HeaderBlock = HeaderBlock(headers: Headers, rest: string)

  /** A repeated header does not replace the first one. */
  function AddFirst(headers: Headers, h: StompHeader, v: string): Headers {
    if h in headers then headers else headers[h := v]
  }

  /** One header line: the line, and the text after it. */
  function ParseLine(s: string): Outcome<(HeaderLine, string)> {
    var k := Index(s, COLON);
    if k == |s| then Rejected(ParsingMissingColonInHeader)
    else if ToHeader(s[..k]) == InvalidHeader then Rejected(ParsingUnrecognizedHeader)
    else
      var v := s[k + 1..];
      if v == [] then Thrown
      else if v[0] == NEW_LINE then Rejected(ParsingEmptyHeaderValue)
      else
        var m := Index(v, NEW_LINE);
        if m == |v| then Rejected(ParsingMissingEolAfterHeaderValue)
        else Parsed((HeaderLine(ToHeader(s[..k]), v[..m]), v[m + 1..]))
  }

  function ParseLines(s: string, headers: Headers): Outcome<HeaderBlock>
    decreases |s|
  {
    if s == [] || s[0] == NEW_LINE then Parsed(HeaderBlock(headers, s))
    else
      match ParseLine(s)
      case Rejected(e) => Rejected(e)
      case Thrown => Thrown
      case Parsed(x) =>
        ParseLineShrinks(s);
        ParseLines(x.1, AddFirst(headers, x.0.header, x.0.value))
  }

  lemma ParseLineShrinks(s: string)
    ensures ParseLine(s).Parsed? ==> |ParseLine(s).value.1| < |s|
  {
    hide CommandText, ToCommand, HeaderText, ToHeader;
  }

  /** The number in a content-length header. A number too big for the size
      type leaves the length at its initial 0. */
  function DeclaredLength(v: string): Outcome<nat> {
    match Decimal.Read(v)
    case NoDigits => Rejected(ParsingInvalidContentLength)
    case Fits(n) => Parsed(n)
    case TooBig => Parsed(0)
  }

  /** Where the body ends: at the declared length, or at the first NUL. */
  function BodyLength(s: string, headers: Headers): Outcome<nat> {
    if ContentLength in headers then
      match DeclaredLength(headers[ContentLength])
      case Rejected(e) => Rejected(e)
      case Thrown => Thrown
      case Parsed(n) =>
        if n == |s| then Rejected(ParsingMissingNullInBody)
        else if n > |s| then Rejected(ParsingContentLengthExceedsFrameLength)
        else if s[n] != NUL then Rejected(ParsingMissingNullInBody)
        else Parsed(n)
    else if Index(s, NUL) == |s| then Rejected(ParsingMissingNullInBody)
    else Parsed(Index(s, NUL))
  }

  predicate OnlyNewLines(s: string) {
    forall i :: 0 <= i < |s| ==> s[i] == NEW_LINE
  }

  function ParseBody(s: string, headers: Headers): Outcome<string> {
    match BodyLength(s, headers)
    case Rejected(e) => Rejected(e)
    case Thrown => Thrown
    case Parsed(n) =>
      if n < |s| && OnlyNewLines(s[n + 1..]) then Parsed(s[..n]) else Rejected(ParsingJunkAfterBody)
  }

  function Parse(s: string): Outcome<Parts> {
    var k := Index(s, NEW_LINE);
    if k == |s| then Rejected(ParsingMissingEolAfterCommand)
    else if ToCommand(s[..k]) == Invalid then Rejected(ParsingUnrecognizedCommand)
    else
      match ParseLines(s[k + 1..], map[])
      case Rejected(e) => Rejected(e)
      case Thrown => Thrown
      case Parsed(block) =>
        if block.rest == [] then Rejected(ParsingMissingBlankLineAfterHeaders)
        else
          match ParseBody(block.rest[1..], block.headers)
          case Rejected(e) => Rejected(e)
          case Thrown => Thrown
          case Parsed(body) => Parsed(Parts(ToCommand(s[..k]), block.headers, body))
  }

  // ----- The grammar of accepted frames -----

  ghost predicate LineOk(l: HeaderLine) {
    l.header != InvalidHeader && l.value != [] && NEW_LINE !in l.value
  }

  ghost predicate LinesOk(lines: seq<HeaderLine>) {
    forall l :: l in lines ==> LineOk(l)
  }

  /** The header map of some lines: of repeated headers, the first counts. */
  ghost function FirstWins(lines: seq<HeaderLine>, headers: Headers): Headers {
    if lines == [] then headers else FirstWins(lines[1..], AddFirst(headers, lines[0].header, lines[0].value))
  }

  /** The body is delimited the way the headers say. */
  ghost predicate BodyFits(headers: Headers, body: string) {
    if ContentLength in headers then DeclaredLength(headers[ContentLength]) == Parsed(|body|)
    else NUL !in body
  }

  /** `s` is a command line, the header lines, a blank line, the body, a NUL,
      and then only new lines. */
  ghost predicate Spells(s: string, p: Parts, lines: seq<HeaderLine>, tail: string) {
    && p.command != Invalid && LinesOk(lines) && FirstWins(lines, map[]) == p.headers
    && BodyFits(p.headers, p.body) && OnlyNewLines(tail)
    && s == Print(p.command, lines, p.body) + tail
  }

  lemma {:induction false} IndexOf(s: string, c: char, t: string)
    requires c !in s
    ensures Index(s + [c] + t, c) == |s|
  {
    if s != [] {
      IndexOf(s[1..], c, t);
      assert (s + [c] + t)[1..] == s[1..] + [c] + t;
    }
  }

  lemma SplitAt(a: string, c: char, b: string)
    ensures var s := a + [c] + b; s[..|a|] == a && s[|a|] == c && s[|a| + 1..] == b
  {
  }

  lemma ParseLinePrinted(l: HeaderLine, t: string)
    requires LineOk(l)
    ensures ParseLine(PrintLine(l) + t) == Parsed((l, t))
    ensures PrintLine(l) != [] && PrintLine(l)[0] != NEW_LINE
  {
    hide CommandText, ToCommand, HeaderText, ToHeader, Index;
    HeaderNames(l.header);
    var name := HeaderText(l.header);
    var v := l.value + [NEW_LINE] + t;
    assert PrintLine(l) + t == name + [COLON] + v;
    IndexOf(name, COLON, v);
    SplitAt(name, COLON, v);
    IndexOf(l.value, NEW_LINE, t);
    SplitAt(l.value, NEW_LINE, t);
  }

  lemma {:induction false} ParseLinesPrinted(lines: seq<HeaderLine>, headers: Headers, t: string)
    requires LinesOk(lines)
    ensures ParseLines(PrintLines(lines) + [NEW_LINE] + t, headers) ==
      Parsed(HeaderBlock(FirstWins(lines, headers), [NEW_LINE] + t))
  {
    hide CommandText, ToCommand, HeaderText, ToHeader, ParseLine, PrintLine;
    var s := PrintLines(lines) + [NEW_LINE] + t;
    if lines == [] {
      assert s == [NEW_LINE] + t;
    } else {
      var u := PrintLines(lines[1..]) + [NEW_LINE] + t;
      assert s == PrintLine(lines[0]) + u;
      ParseLinePrinted(lines[0], u);
      ParseLinesPrinted(lines[1..], AddFirst(headers, lines[0].header, lines[0].value), t);
    }
  }

  lemma ParseBodyPrinted(headers: Headers, body: string, tail: string)
    requires BodyFits(headers, body) && OnlyNewLines(tail)
    ensures ParseBody(body + [NUL] + tail, headers) == Parsed(body)
  {
    var s := body + [NUL] + tail;
    if ContentLength !in headers {
      IndexOf(body, NUL, tail);
    }
    assert s[..|body|] == body && s[|body| + 1..] == tail;
  }

  /** Every spelled-out frame is accepted, with the parts it spells. */
  lemma SpelledIsParsed(s: string, p: Parts, lines: seq<HeaderLine>, tail: string)
    requires Spells(s, p, lines, tail)
    ensures Parse(s) == Parsed(p)
  {
    hide CommandText, ToCommand, HeaderText, ToHeader, ParseLines, ParseBody, PrintLines, FirstWins, BodyFits;
    CommandNames(p.command);
    var name := CommandText(p.command);
    var body := p.body + [NUL] + tail;
    var block := PrintLines(lines) + [NEW_LINE] + body;
    assert s == name + [NEW_LINE] + block;
    IndexOf(name, NEW_LINE, block);
    assert s[..|name|] == name && s[|name| + 1..] == block;
    ParseLinesPrinted(lines, map[], body);
    assert ([NEW_LINE] + body)[1..] == body;
    ParseBodyPrinted(p.headers, p.body, tail);
  }

  lemma ParsedLine(s: string)
    requires s != [] && s[0] != NEW_LINE && ParseLine(s).Parsed?
    ensures var x := ParseLine(s).value; LineOk(x.0) && s == PrintLine(x.0) + x.1
  {
    hide CommandText, ToCommand, HeaderText, ToHeader, Index;
    var k := Index(s, COLON);
    HeaderOfText(s[..k]);
    var v := s[k + 1..];
    var m := Index(v, NEW_LINE);
    assert m > 0;
    var l := HeaderLine(ToHeader(s[..k]), v[..m]);
    assert PrintLine(l) + v[m + 1..] == s[..k] + [COLON] + (v[..m] + [NEW_LINE] + v[m + 1..]);
    assert v == v[..m] + [NEW_LINE] + v[m + 1..];
    assert s == s[..k] + [COLON] + v;
  }

  /** `s` is some header lines, and then what is left after them. */
  ghost predicate SpellsLines(s: string, headers: Headers, lines: seq<HeaderLine>, block: HeaderBlock) {
    && LinesOk(lines) && FirstWins(lines, headers) == block.headers
    && s == PrintLines(lines) + block.rest && (block.rest == [] || block.rest[0] == NEW_LINE)
  }

  lemma SpellsOneMore(s: string, headers: Headers, l: HeaderLine, t: string, more: seq<HeaderLine>, block: HeaderBlock)
    requires LineOk(l) && s == PrintLine(l) + t
    requires SpellsLines(t, AddFirst(headers, l.header, l.value), more, block)
    ensures SpellsLines(s, headers, [l] + more, block)
  {
    hide LineOk, PrintLine;
    assert ([l] + more)[1..] == more;
    assert s == PrintLine(l) + (PrintLines(more) + block.rest);
  }

  lemma {:induction false} ParsedLines(s: string, headers: Headers) returns (lines: seq<HeaderLine>)
    requires ParseLines(s, headers).Parsed?
    ensures SpellsLines(s, headers, lines, ParseLines(s, headers).value)
    decreases |s|
  {
    hide ParseLine, LineOk, PrintLine, AddFirst;
    if s == [] || s[0] == NEW_LINE {
      lines := [];
    } else {
      var x := ParseLine(s).value;
      ParseLineShrinks(s);
      ParsedLine(s);
      var more := ParsedLines(x.1, AddFirst(headers, x.0.header, x.0.value));
      SpellsOneMore(s, headers, x.0, x.1, more, ParseLines(s, headers).value);
      lines := [x.0] + more;
    }
  }

  lemma ParsedBody(s: string, headers: Headers) returns (tail: string)
    requires ParseBody(s, headers).Parsed?
    ensures var body := ParseBody(s, headers).value;
            BodyFits(headers, body) && OnlyNewLines(tail) && s == body + [NUL] + tail
  {
    var n := BodyLength(s, headers).value;
    tail := s[n + 1..];
    assert s == s[..n] + [NUL] + tail;
  }

  /** Every accepted frame is spelled out of the parts it was parsed into. */
  lemma ParsedIsSpelled(s: string) returns (lines: seq<HeaderLine>, tail: string)
    requires Parse(s).Parsed?
    ensures Spells(s, Parse(s).value, lines, tail)
  {
    hide CommandText, ToCommand, HeaderText, ToHeader, ParseLines, ParseBody, PrintLines, FirstWins,
      Index, BodyFits, LinesOk, OnlyNewLines;
    var k := Index(s, NEW_LINE);
    CommandOfText(s[..k]);
    assert s == s[..k] + [NEW_LINE] + s[k + 1..];
    var block := ParseLines(s[k + 1..], map[]).value;
    lines := ParsedLines(s[k + 1..], map[]);
    tail := ParsedBody(block.rest[1..], block.headers);
    assert block.rest == [NEW_LINE] + block.rest[1..];
  }

  /** The parser accepts exactly the grammar. */
  lemma ParserAcceptsGrammar(s: string, p: Parts)
    ensures Parse(s) == Parsed(p) <==> exists lines, tail :: Spells(s, p, lines, tail)
  {
    hide CommandText, ToCommand, HeaderText, ToHeader, Parse, Spells;
    if Parse(s) == Parsed(p) {
      var lines, tail := ParsedIsSpelled(s);
    }
    if lines, tail :| Spells(s, p, lines, tail) {
      SpelledIsParsed(s, p, lines, tail);
    }
  }

  // ----- Round trip -----

  /** `lines` walks the header map in some order. */
  ghost predicate Walks(lines: seq<HeaderLine>, headers: Headers) {
    && (forall i, j :: 0 <= i < j < |lines| ==> lines[i].header != lines[j].header)
    && (forall l :: l in lines ==> l.header in headers && headers[l.header] == l.value)
    && (forall h :: h in headers ==> HeaderLine(h, headers[h]) in lines)
  }

  lemma {:induction false} WalkExists(headers: Headers) returns (lines: seq<HeaderLine>)
    ensures Walks(lines, headers)
    decreases |headers|
  {
    if headers == map[] {
      lines := [];
    } else {
      var h :| h in headers;
      var rest := headers - {h};
      assert headers.Keys == rest.Keys + {h};
      var more := WalkExists(rest);
      lines := [HeaderLine(h, headers[h])] + more;
    }
  }

  lemma {:induction false} FirstWinsKeeps(lines: seq<HeaderLine>, before: Headers, h: StompHeader)
    requires h in before
    ensures h in FirstWins(lines, before) && FirstWins(lines, before)[h] == before[h]
  {
    if lines != [] {
      FirstWinsKeeps(lines[1..], AddFirst(before, lines[0].header, lines[0].value), h);
    }
  }

  lemma {:induction false} FirstWinsFinds(lines: seq<HeaderLine>, before: Headers, i: nat)
    requires i < |lines| && lines[i].header !in before
    requires forall j :: 0 <= j < i ==> lines[j].header != lines[i].header
    ensures lines[i].header in FirstWins(lines, before)
    ensures FirstWins(lines, before)[lines[i].header] == lines[i].value
  {
    var next := AddFirst(before, lines[0].header, lines[0].value);
    if i == 0 {
      FirstWinsKeeps(lines[1..], next, lines[0].header);
    } else {
      FirstWinsFinds(lines[1..], next, i - 1);
    }
  }

  lemma {:induction false} FirstWinsOnly(lines: seq<HeaderLine>, before: Headers, h: StompHeader)
    requires h in FirstWins(lines, before)
    ensures h in before || exists l :: l in lines && l.header == h
  {
    if lines != [] && h !in before {
      FirstWinsOnly(lines[1..], AddFirst(before, lines[0].header, lines[0].value), h);
      assert lines[0] in lines && forall l :: l in lines[1..] ==> l in lines;
    }
  }

  lemma WalkedHeaders(lines: seq<HeaderLine>, headers: Headers)
    requires Walks(lines, headers)
    ensures FirstWins(lines, map[]) == headers
  {
    var after := FirstWins(lines, map[]);
    forall h | h in after ensures h in headers {
      FirstWinsOnly(lines, map[], h);
    }
    forall h | h in headers ensures h in after && after[h] == headers[h] {
      var i :| 0 <= i < |lines| && lines[i] == HeaderLine(h, headers[h]);
      FirstWinsFinds(lines, map[], i);
    }
  }

  ghost predicate HeadersOk(headers: Headers) {
    forall h :: h in headers ==> LineOk(HeaderLine(h, headers[h]))
  }

  /** A frame can be printed: known names, values of one non-empty line, and a
      body delimited the way the headers say. */
  ghost predicate Printable(p: Parts) {
    && p.command != Invalid
    && HeadersOk(p.headers)
    && BodyFits(p.headers, p.body)
  }

  lemma AddFirstOk(headers: Headers, l: HeaderLine)
    requires HeadersOk(headers) && LineOk(l)
    ensures HeadersOk(AddFirst(headers, l.header, l.value))
  {
  }

  lemma {:induction false} FirstWinsOk(lines: seq<HeaderLine>, before: Headers)
    requires LinesOk(lines) && HeadersOk(before)
    ensures HeadersOk(FirstWins(lines, before))
  {
    if lines != [] {
      assert LineOk(lines[0]);
      assert forall l :: l in lines[1..] ==> l in lines;
      AddFirstOk(before, lines[0]);
      FirstWinsOk(lines[1..], AddFirst(before, lines[0].header, lines[0].value));
    }
  }

  /** The headers of an accepted frame are known, and their values single lines. */
  lemma ParsedHeadersOk(s: string)
    requires Parse(s).Parsed?
    ensures HeadersOk(Parse(s).value.headers)
  {
    hide Parse, Print, FirstWins, BodyFits;
    var lines, tail := ParsedIsSpelled(s);
    FirstWinsOk(lines, map[]);
  }

  /** Printing and parsing back gives exactly the same parts, whatever order
      the header map was walked in, if and only if the parts are printable. */
  lemma RoundTrip(p: Parts, lines: seq<HeaderLine>)
    requires Walks(lines, p.headers)
    ensures Parse(Print(p.command, lines, p.body)) == Parsed(p) <==> Printable(p)
  {
    hide CommandText, ToCommand, HeaderText, ToHeader, Parse, Print, FirstWins, BodyFits;
    var s := Print(p.command, lines, p.body);
    WalkedHeaders(lines, p.headers);
    if Printable(p) {
      assert s + [] == s;
      assert Spells(s, p, lines, []);
      SpelledIsParsed(s, p, lines, []);
    }
    if Parse(s) == Parsed(p) {
      var found, tail := ParsedIsSpelled(s);
      FirstWinsOk(found, map[]);
    }
  }

  /** What was parsed is printable, so that printing it and parsing it again
      gives the same parts. */
  lemma Canonical(s: string, lines: seq<HeaderLine>)
    requires Parse(s).Parsed? && Walks(lines, Parse(s).value.headers)
    ensures var p := Parse(s).value; Parse(Print(p.command, lines, p.body)) == Parsed(p)
  {
    hide CommandText, ToCommand, HeaderText, ToHeader, Parse, Print, FirstWins, BodyFits;
    var found, tail := ParsedIsSpelled(s);
    ParsedHeadersOk(s);
    RoundTrip(Parse(s).value, lines);
  }

  // ----- Validation -----

  function RequiredHeaders(c: StompCommand): set<StompHeader> {
    match c
    case Connect | Stomp => {AcceptVersion, Host}
    case Connected => {Version}
    case Send => {Destination}
    case Subscribe => {Destination, Id}
    case Unsubscribe | Ack | Nack => {Id}
    case Begin | Commit | Abort => {Transaction}
    case Message => {Destination, MessageId, Subscription}
    case Receipt => {ReceiptId}
    case Disconnect | Error | Invalid => {}
  }

  /** Validation. The length it compares is an uninitialized variable if the
      declared number is too big: `junk` stands for what it happens to hold. */
  function Validate(p: Parts, junk: nat): StompError {
    if p.command == Invalid then ValidationInvalidCommand
    else if !(RequiredHeaders(p.command) <= p.headers.Keys) then ValidationMissingHeader
    else if ContentLength !in p.headers then Ok
    else
      match Decimal.Read(p.headers[ContentLength])
      case NoDigits => ValidationInvalidContentLength
      case Fits(n) => if n != |p.body| then ValidationContentLengthMismatch else Ok
      case TooBig => if junk != |p.body| then ValidationContentLengthMismatch else Ok
  }

  /** Once a frame has been parsed, validation misses a header, or reports a
      mismatch that is none: of a declared length too big for the size type,
      whose body is empty, exactly if the uninitialized length is not 0. */
  lemma ValidationAfterParsing(s: string, junk: nat)
    requires Parse(s).Parsed?
    ensures var p := Parse(s).value;
            var e := Validate(p, junk);
            var complete := RequiredHeaders(p.command) <= p.headers.Keys;
            var tooBig := ContentLength in p.headers && Decimal.Read(p.headers[ContentLength]).TooBig?;
            && (e == ValidationMissingHeader <==> !complete)
            && (e == ValidationContentLengthMismatch <==> complete && tooBig && junk != 0)
            && e in {Ok, ValidationMissingHeader, ValidationContentLengthMismatch}
            && (tooBig ==> p.body == "")
  {
    hide CommandText, ToCommand, HeaderText, ToHeader, Parse, Print, FirstWins;
    var lines, tail := ParsedIsSpelled(s);
  }
}
