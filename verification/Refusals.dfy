/** Why a text is refused, said about the text itself and not about the order in
    which the parser looks at it. */
module Refusals {
  import Decimal
  import opened Frames

  /** A command line and valid header lines, and then something else. */
  ghost predicate Opens(s: string, c: StompCommand, lines: seq<HeaderLine>, rest: string) {
    c != Invalid && LinesOk(lines) && s == CommandText(c) + [NEW_LINE] + PrintLines(lines) + rest
  }

  /** `name` is what comes before the first `c`, and `t` what comes after it. */
  ghost predicate Splits(s: string, name: string, c: char, t: string) {
    c !in name && s == name + [c] + t
  }

  ghost predicate KnownCommand(name: string) {
    exists c :: c != Invalid && CommandText(c) == name
  }

  ghost predicate KnownHeader(name: string) {
    exists h :: h != InvalidHeader && HeaderText(h) == name
  }

  // ----- Faults of a header line -----

  /** There is no blank line yet, but what comes next is no header line. */
  ghost predicate LineFault(rest: string, e: StompError) {
    && rest != "" && rest[0] != NEW_LINE
    && if COLON !in rest then e == ParsingMissingColonInHeader
       else exists name, t :: Splits(rest, name, COLON, t) && ColonFault(name, t, e)
  }

  ghost predicate ColonFault(name: string, t: string, e: StompError) {
    match e
    case ParsingUnrecognizedHeader => !KnownHeader(name)
    case ParsingEmptyHeaderValue => KnownHeader(name) && t != "" && t[0] == NEW_LINE
    case ParsingMissingEolAfterHeaderValue => KnownHeader(name) && t != "" && NEW_LINE !in t
    case _ => false
  }

  /** The text ends right after the colon of a known header. */
  ghost predicate EndsAtColon(rest: string) {
    exists name :: Splits(rest, name, COLON, "") && KnownHeader(name)
  }

  lemma SplitsAtIndex(s: string, name: string, c: char, t: string)
    requires Splits(s, name, c, t)
    ensures Index(s, c) == |name| < |s| && s[..|name|] == name && s[|name| + 1..] == t
  {
    IndexOf(name, c, t);
  }

  lemma IndexSplits(s: string, c: char)
    ensures var k := Index(s, c); if k == |s| then c !in s else Splits(s, s[..k], c, s[k + 1..])
  {
  }

  lemma KnownHeaderMeans(name: string)
    ensures KnownHeader(name) <==> ToHeader(name) != InvalidHeader
  {
    hide HeaderText, ToHeader;
    HeaderOfText(name);
    forall h | HeaderText(h) == name ensures ToHeader(name) == h {
      HeaderNames(h);
    }
  }

  lemma KnownCommandMeans(name: string)
    ensures KnownCommand(name) <==> ToCommand(name) != Invalid
  {
    hide CommandText, ToCommand;
    CommandOfText(name);
    forall c | CommandText(c) == name ensures ToCommand(name) == c {
      CommandNames(c);
    }
  }

  lemma LineRefused(rest: string, e: StompError)
    requires rest != "" && rest[0] != NEW_LINE
    ensures ParseLine(rest) == Rejected(e) <==> LineFault(rest, e)
    ensures ParseLine(rest) == Thrown <==> EndsAtColon(rest)
  {
    hide HeaderText, ToHeader, Index, KnownHeader, ColonFault, ParseLine, Splits;
    var k := Index(rest, COLON);
    IndexSplits(rest, COLON);
    if k == |rest| {
      NoColonRefused(rest);
      NoColonNoSplit(rest);
    } else {
      var name, t := rest[..k], rest[k + 1..];
      ColonRefused(rest, name, t, e);
      forall n, u | Splits(rest, n, COLON, u) ensures n == name && u == t {
        SplitsAtIndex(rest, n, COLON, u);
      }
    }
  }

  lemma NoColonNoSplit(rest: string)
    requires COLON !in rest
    ensures !EndsAtColon(rest)
  {
    hide KnownHeader;
  }

  lemma NoColonRefused(rest: string)
    requires COLON !in rest
    ensures ParseLine(rest) == Rejected(ParsingMissingColonInHeader)
  {
    hide HeaderText, ToHeader, Index;
  }

  lemma ColonRefused(rest: string, name: string, t: string, e: StompError)
    requires Splits(rest, name, COLON, t)
    ensures COLON in rest
    ensures ParseLine(rest) == Rejected(e) <==> ColonFault(name, t, e)
    ensures ParseLine(rest) == Thrown <==> KnownHeader(name) && t == ""
  {
    hide HeaderText, ToHeader, Index, KnownHeader;
    SplitsAtIndex(rest, name, COLON, t);
    KnownHeaderMeans(name);
    IndexSplits(t, NEW_LINE);
    assert rest[|name|] == COLON;
  }

  // ----- Faults of a body -----

  /** What a content-length value declares: the number its digits spell, and 0 if
      that is too big for the size type. */
  ghost predicate Declares(v: string, n: nat) {
    exists digits, more ::
      && v == digits + more && Spells64(digits, n)
      && (more == "" || !Decimal.IsDigit(more[0]))
  }

  ghost predicate Spells64(digits: string, n: nat) {
    && digits != "" && Decimal.AllDigits(digits)
    && n == if Decimal.Value(digits) < 0x1_0000_0000_0000_0000 then Decimal.Value(digits) else 0
  }

  ghost predicate BodyFault(headers: Headers, t: string, e: StompError) {
    match e
    case ParsingInvalidContentLength =>
      ContentLength in headers &&
      (headers[ContentLength] == "" || !Decimal.IsDigit(headers[ContentLength][0]))
    case ParsingContentLengthExceedsFrameLength =>
      ContentLength in headers && exists n: nat :: Declares(headers[ContentLength], n) && n > |t|
    case ParsingMissingNullInBody =>
      if ContentLength in headers then
        exists n: nat :: Declares(headers[ContentLength], n) && n <= |t| && (n < |t| ==> t[n] != NUL)
      else NUL !in t
    case ParsingJunkAfterBody => exists body, tail :: Delimits(headers, t, body, tail) && HasJunk(tail)
    case _ => false
  }

  ghost predicate HasJunk(tail: string) {
    exists i :: 0 <= i < |tail| && tail[i] != NEW_LINE
  }

  lemma JunkMeans(tail: string)
    ensures HasJunk(tail) <==> !OnlyNewLines(tail)
  {
  }

  /** The text is a body, delimited the way the headers say, a NUL and the rest. */
  ghost predicate Delimits(headers: Headers, t: string, body: string, tail: string) {
    BodyFits(headers, body) && t == body + [NUL] + tail
  }

  lemma {:induction false} DigitPrefix(digits: string, more: string)
    requires Decimal.AllDigits(digits) && (more == "" || !Decimal.IsDigit(more[0]))
    ensures Decimal.DigitCount(digits + more) == |digits|
  {
    if digits != "" {
      DigitPrefix(digits[1..], more);
      assert (digits + more)[1..] == digits[1..] + more;
    }
  }

  lemma DeclaredMeans(v: string, n: nat)
    ensures DeclaredLength(v) == Parsed(n) <==> Declares(v, n)
    ensures DeclaredLength(v) == Rejected(ParsingInvalidContentLength) <==> v == "" || !Decimal.IsDigit(v[0])
    ensures DeclaredLength(v).Parsed? || DeclaredLength(v) == Rejected(ParsingInvalidContentLength)
  {
    var k := Decimal.DigitCount(v);
    if k > 0 {
      assert v == v[..k] + v[k..];
      assert DeclaredLength(v).Parsed? && Spells64(v[..k], DeclaredLength(v).value);
      assert Declares(v, DeclaredLength(v).value);
    }
    if digits, more :| v == digits + more && Spells64(digits, n) && (more == "" || !Decimal.IsDigit(more[0])) {
      DigitPrefix(digits, more);
      assert v[..k] == digits;
    }
  }

  lemma BodyRefused(t: string, headers: Headers, e: StompError)
    ensures ParseBody(t, headers) == Rejected(e) <==> BodyFault(headers, t, e)
    ensures ParseBody(t, headers) != Thrown
  {
    hide DeclaredLength, Declares, Index;
    if ContentLength in headers {
      DeclaredBodyRefused(t, headers, e);
    } else {
      UndeclaredBodyRefused(t, headers, e);
    }
  }

  lemma DeclaredBodyRefused(t: string, headers: Headers, e: StompError)
    requires ContentLength in headers
    ensures ParseBody(t, headers) == Rejected(e) <==> BodyFault(headers, t, e)
    ensures ParseBody(t, headers) != Thrown
  {
    hide DeclaredLength, Declares, Index, OnlyNewLines, HasJunk, Delimits;
    var v := headers[ContentLength];
    forall n: nat ensures DeclaredLength(v) == Parsed(n) <==> Declares(v, n) {
      DeclaredMeans(v, n);
    }
    DeclaredMeans(v, 0);
    JunkAfterDeclared(t, headers);
  }

  /** A body of the declared length, and junk after it. */
  lemma JunkAfterDeclared(t: string, headers: Headers)
    requires ContentLength in headers
    ensures var d := DeclaredLength(headers[ContentLength]);
            (exists body, tail :: Delimits(headers, t, body, tail) && HasJunk(tail)) <==>
            d.Parsed? && d.value < |t| && t[d.value] == NUL && !OnlyNewLines(t[d.value + 1..])
  {
    hide DeclaredLength, OnlyNewLines, HasJunk;
    var d := DeclaredLength(headers[ContentLength]);
    if d.Parsed? && d.value < |t| && t[d.value] == NUL {
      JunkMeans(t[d.value + 1..]);
      assert Delimits(headers, t, t[..d.value], t[d.value + 1..]);
    }
    forall body, tail | Delimits(headers, t, body, tail) ensures tail == t[|body| + 1..] && t[|body|] == NUL {
    }
  }

  lemma UndeclaredBodyRefused(t: string, headers: Headers, e: StompError)
    requires ContentLength !in headers
    ensures ParseBody(t, headers) == Rejected(e) <==> BodyFault(headers, t, e)
    ensures ParseBody(t, headers) != Thrown
  {
    hide Index, OnlyNewLines, HasJunk;
    var k := Index(t, NUL);
    IndexSplits(t, NUL);
    if k < |t| {
      assert Delimits(headers, t, t[..k], t[k + 1..]);
    }
    forall body, tail | Delimits(headers, t, body, tail)
      ensures |body| == k && tail == t[k + 1..] && (HasJunk(tail) <==> !OnlyNewLines(tail))
    {
      JunkMeans(tail);
      SplitsAtIndex(t, body, NUL, tail);
    }
  }

  // ----- Faults of a text -----

  /** What is wrong with what comes after some header lines. */
  ghost predicate FaultAfter(headers: Headers, rest: string, e: StompError) {
    if rest == "" then e == ParsingMissingBlankLineAfterHeaders
    else if rest[0] == NEW_LINE then BodyFault(headers, rest[1..], e)
    else LineFault(rest, e)
  }

  ghost predicate BadFirstLine(s: string) {
    exists name, t :: Splits(s, name, NEW_LINE, t) && !KnownCommand(name)
  }

  /** What is wrong with a text that is refused with a given error. */
  ghost predicate Fault(s: string, e: StompError) {
    || (NEW_LINE !in s && e == ParsingMissingEolAfterCommand)
    || (BadFirstLine(s) && e == ParsingUnrecognizedCommand)
    || exists c, lines, rest :: Opens(s, c, lines, rest) && FaultAfter(FirstWins(lines, map[]), rest, e)
  }

  lemma {:induction false} LinesThen(lines: seq<HeaderLine>, headers: Headers, rest: string)
    requires LinesOk(lines)
    ensures ParseLines(PrintLines(lines) + rest, headers) == ParseLines(rest, FirstWins(lines, headers))
  {
    hide ParseLine, PrintLine, LineOk, AddFirst;
    var s := PrintLines(lines) + rest;
    if lines == [] {
      assert s == rest;
    } else {
      var u := PrintLines(lines[1..]) + rest;
      assert s == PrintLine(lines[0]) + u;
      ParseLinePrinted(lines[0], u);
      LinesThen(lines[1..], AddFirst(headers, lines[0].header, lines[0].value), rest);
    }
  }

  /** Every text is some header lines and then something that is none. */
  lemma {:induction false} LinesBefore(s: string) returns (lines: seq<HeaderLine>, rest: string)
    ensures LinesOk(lines) && s == PrintLines(lines) + rest
    ensures rest == "" || rest[0] == NEW_LINE || !ParseLine(rest).Parsed?
    decreases |s|
  {
    hide ParseLine, LineOk, PrintLine;
    if s == "" || s[0] == NEW_LINE || !ParseLine(s).Parsed? {
      lines, rest := [], s;
    } else {
      ParsedLine(s);
      ParseLineShrinks(s);
      var x := ParseLine(s).value;
      var more;
      more, rest := LinesBefore(x.1);
      lines := [x.0] + more;
      assert lines[1..] == more;
      assert s == PrintLine(x.0) + (PrintLines(more) + rest);
    }
  }

  /** What parsing comes to once the command line has been read. */
  function ParseAfterCommand(c: StompCommand, lines: Outcome<HeaderBlock>): Outcome<Parts> {
    match lines
    case Rejected(e) => Rejected(e)
    case Thrown => Thrown
    case Parsed(block) =>
      if block.rest == [] then Rejected(ParsingMissingBlankLineAfterHeaders)
      else
        match ParseBody(block.rest[1..], block.headers)
        case Rejected(e) => Rejected(e)
        case Thrown => Thrown
        case Parsed(body) => Parsed(Parts(c, block.headers, body))
  }

  lemma ParseOpened(s: string, c: StompCommand, lines: seq<HeaderLine>, rest: string)
    requires Opens(s, c, lines, rest)
    ensures Parse(s) == ParseAfterCommand(c, ParseLines(rest, FirstWins(lines, map[])))
  {
    hide CommandText, ToCommand, ParseLines, ParseBody, PrintLines, FirstWins, LinesOk;
    CommandNames(c);
    var name, block := CommandText(c), PrintLines(lines) + rest;
    assert s == name + [NEW_LINE] + block;
    IndexOf(name, NEW_LINE, block);
    SplitAt(name, NEW_LINE, block);
    LinesThen(lines, map[], rest);
  }

  /** Refusing what comes after the header lines: with its own error, and with
      no other, once all header lines have been read. */
  lemma OpenedRefused(s: string, c: StompCommand, lines: seq<HeaderLine>, rest: string, e: StompError)
    requires Opens(s, c, lines, rest)
    ensures FaultAfter(FirstWins(lines, map[]), rest, e) ==> Parse(s) == Rejected(e)
    ensures EndsAtColon(rest) ==> Parse(s) == Thrown
    ensures rest == "" || rest[0] == NEW_LINE || !ParseLine(rest).Parsed? ==>
      && (Parse(s) == Rejected(e) ==> FaultAfter(FirstWins(lines, map[]), rest, e))
      && (Parse(s) == Thrown ==> EndsAtColon(rest))
  {
    hide Opens, LineFault, BodyFault, FirstWins, ParseBody, ParseLine, Parse, Splits, KnownHeader;
    ParseOpened(s, c, lines, rest);
    if EndsAtColon(rest) {
      NoNameStartsBlank(rest);
    }
    if rest != "" && rest[0] != NEW_LINE {
      LineRefused(rest, e);
    } else if rest != "" {
      BodyRefused(rest[1..], FirstWins(lines, map[]), e);
    }
  }

  lemma NoNameStartsBlank(rest: string)
    requires EndsAtColon(rest)
    ensures rest != "" && rest[0] != NEW_LINE
  {
    hide HeaderText;
    var name :| Splits(rest, name, COLON, "") && KnownHeader(name);
    var h :| h != InvalidHeader && HeaderText(h) == name;
    HeaderNames(h);
    assert rest[0] == name[0] && name[0] in name;
  }

  lemma OpensSplits(s: string, c: StompCommand, lines: seq<HeaderLine>, rest: string)
    requires Opens(s, c, lines, rest)
    ensures NEW_LINE in s && s[..Index(s, NEW_LINE)] == CommandText(c) && KnownCommand(CommandText(c))
  {
    hide CommandText, LinesOk, PrintLines, Index;
    CommandNames(c);
    var t := PrintLines(lines) + rest;
    assert s == CommandText(c) + [NEW_LINE] + t;
    SplitsAtIndex(s, CommandText(c), NEW_LINE, t);
    assert s[|CommandText(c)|] == NEW_LINE;
  }

  /** Whether the first line is there and is a command. */
  lemma FirstLine(s: string)
    ensures var k := Index(s, NEW_LINE);
            && (NEW_LINE !in s <==> k == |s|)
            && (BadFirstLine(s) <==> k < |s| && !KnownCommand(s[..k]))
            && (k == |s| ==> Parse(s) == Rejected(ParsingMissingEolAfterCommand))
            && (k < |s| && !KnownCommand(s[..k]) ==> Parse(s) == Rejected(ParsingUnrecognizedCommand))
  {
    hide Splits, KnownCommand, ToCommand, Index, ParseLines, ParseBody;
    var k := Index(s, NEW_LINE);
    IndexSplits(s, NEW_LINE);
    forall name, t | Splits(s, name, NEW_LINE, t) ensures name == s[..k] && k < |s| {
      SplitsAtIndex(s, name, NEW_LINE, t);
    }
    KnownCommandMeans(s[..k]);
    assert k < |s| ==> s[k] == NEW_LINE;
  }

  /** A text whose first line is a command, read as far as its header lines go. */
  lemma OpeningOf(s: string) returns (c: StompCommand, lines: seq<HeaderLine>, rest: string)
    requires Index(s, NEW_LINE) < |s| && KnownCommand(s[..Index(s, NEW_LINE)])
    ensures Opens(s, c, lines, rest)
    ensures rest == "" || rest[0] == NEW_LINE || !ParseLine(rest).Parsed?
  {
    hide CommandText, LinesOk, ParseLine, PrintLines, Index;
    var k := Index(s, NEW_LINE);
    c :| c != Invalid && CommandText(c) == s[..k];
    lines, rest := LinesBefore(s[k + 1..]);
    assert s == s[..k] + [NEW_LINE] + s[k + 1..];
  }

  /** A text is refused with an error exactly if it has the fault that the error
      stands for. As parsing comes to one outcome, no text has two faults, and
      every text that is not accepted has one or makes the parser throw. */
  lemma ParserRefusesExactly(s: string, e: StompError)
    ensures Parse(s) == Rejected(e) <==> Fault(s, e)
  {
    hide Opens, KnownCommand, FaultAfter, EndsAtColon, FirstWins, ParseLine, Parse, Index, BadFirstLine, CommandText;
    var k := Index(s, NEW_LINE);
    FirstLine(s);
    forall c, lines, rest | Opens(s, c, lines, rest)
      ensures k < |s| && KnownCommand(s[..k])
      ensures FaultAfter(FirstWins(lines, map[]), rest, e) ==> Parse(s) == Rejected(e)
    {
      OpensSplits(s, c, lines, rest);
      OpenedRefused(s, c, lines, rest, e);
    }
    if k < |s| && KnownCommand(s[..k]) {
      var c, lines, rest := OpeningOf(s);
      OpenedRefused(s, c, lines, rest, e);
    }
  }

  /** Parsing throws exactly if the text ends with the colon of a header. */
  lemma ParserThrowsExactly(s: string)
    ensures Parse(s) == Thrown <==> exists c, lines, rest :: Opens(s, c, lines, rest) && EndsAtColon(rest)
  {
    hide Opens, KnownCommand, FaultAfter, EndsAtColon, FirstWins, ParseLine, Parse, Index, BadFirstLine, CommandText;
    var k := Index(s, NEW_LINE);
    FirstLine(s);
    forall c, lines, rest | Opens(s, c, lines, rest) && EndsAtColon(rest) ensures Parse(s) == Thrown {
      OpenedRefused(s, c, lines, rest, Ok);
    }
    if k < |s| && KnownCommand(s[..k]) {
      var c, lines, rest := OpeningOf(s);
      OpenedRefused(s, c, lines, rest, Ok);
    }
  }

  /** So a text is accepted exactly if nothing is wrong with it. */
  lemma AcceptedExactly(s: string)
    ensures Parse(s).Parsed? <==>
      (forall e :: !Fault(s, e)) && forall c, lines, rest :: Opens(s, c, lines, rest) ==> !EndsAtColon(rest)
  {
    hide Parse, Fault, Opens, EndsAtColon;
    ParserThrowsExactly(s);
    forall e ensures Parse(s) == Rejected(e) <==> Fault(s, e) {
      ParserRefusesExactly(s, e);
    }
  }

  // ----- Faults that validation finds -----

  /** The commands that cannot do without a header. */
  function NeededBy(h: StompHeader): set<StompCommand> {
    match h
    case AcceptVersion | Host => {Connect, Stomp}
    case Version => {Connected}
    case Destination => {Send, Subscribe, Message}
    case Id => {Subscribe, Unsubscribe, Ack, Nack}
    case Transaction => {Begin, Commit, Abort}
    case MessageId | Subscription => {Message}
    case ReceiptId => {Receipt}
    case _ => {}
  }

  ghost predicate Complete(p: Parts) {
    forall h :: p.command in NeededBy(h) ==> h in p.headers
  }

  lemma RequiredMeans(p: Parts)
    ensures RequiredHeaders(p.command) <= p.headers.Keys <==> Complete(p)
  {
    forall h ensures h in RequiredHeaders(p.command) <==> p.command in NeededBy(h) {
    }
  }

  /** What a body's length is compared with: the number the value's digits spell,
      or whatever the uninitialized length holds if that is too big. */
  ghost predicate ComparedWith(v: string, junk: nat, n: nat) {
    exists digits, more ::
      && v == digits + more && digits != "" && Decimal.AllDigits(digits)
      && (more == "" || !Decimal.IsDigit(more[0]))
      && n == if Decimal.Value(digits) < 0x1_0000_0000_0000_0000 then Decimal.Value(digits) else junk
  }

  lemma ComparedMeans(v: string, junk: nat, n: nat)
    ensures ComparedWith(v, junk, n) <==>
      match Decimal.Read(v) case NoDigits => false case Fits(k) => n == k case TooBig => n == junk
    ensures Decimal.Read(v).NoDigits? <==> v == "" || !Decimal.IsDigit(v[0])
  {
    var k := Decimal.DigitCount(v);
    assert v == v[..k] + v[k..];
    forall digits, more | v == digits + more && Decimal.AllDigits(digits) && (more == "" || !Decimal.IsDigit(more[0]))
      ensures digits == v[..k]
    {
      DigitPrefix(digits, more);
    }
  }

  /** Exactly when validation reports which error. */
  lemma ValidationRefusesExactly(p: Parts, junk: nat)
    ensures var e := Validate(p, junk);
            var sound := p.command != Invalid && Complete(p);
            && (e == ValidationInvalidCommand <==> p.command == Invalid)
            && (e == ValidationMissingHeader <==> p.command != Invalid && !Complete(p))
            && (e == ValidationInvalidContentLength <==>
                  sound && ContentLength in p.headers &&
                  (p.headers[ContentLength] == "" || !Decimal.IsDigit(p.headers[ContentLength][0])))
            && (e == ValidationContentLengthMismatch <==>
                  sound && ContentLength in p.headers &&
                  exists n: nat :: ComparedWith(p.headers[ContentLength], junk, n) && n != |p.body|)
            && (e == Ok <==>
                  sound && (ContentLength in p.headers ==> ComparedWith(p.headers[ContentLength], junk, |p.body|)))
  {
    hide RequiredHeaders, Complete, ComparedWith, Decimal.Read;
    RequiredMeans(p);
    if ContentLength in p.headers {
      forall n: nat
        ensures ComparedWith(p.headers[ContentLength], junk, n) <==>
          match Decimal.Read(p.headers[ContentLength])
          case NoDigits => false case Fits(k) => n == k case TooBig => n == junk
      {
        ComparedMeans(p.headers[ContentLength], junk, n);
      }
      ComparedMeans(p.headers[ContentLength], junk, 0);
      match Decimal.Read(p.headers[ContentLength])
      case NoDigits =>
      case Fits(k) => assert ComparedWith(p.headers[ContentLength], junk, k);
      case TooBig => assert ComparedWith(p.headers[ContentLength], junk, junk);
    }
  }
}
