/** The frame object: its parser and printer loops, proved against Frames. */
module StompFrames {
  import opened Frames
  import Decimal

  /** What constructing a frame comes to: an error code, or an exception. */
  datatype Code = Returned(error: StompError) | Threw

  /** The value of a header, empty if the frame does not have it. */
  function HeaderValue(headers: Headers, h: StompHeader): string {
    if h in headers then headers[h] else ""
  }

  /** Parsing and then validating a text. */
  function Check(s: string, junk: nat): Code {
    match Parse(s)
    case Rejected(e) => Returned(e)
    case Thrown => Threw
    case Parsed(p) => Returned(Validate(p, junk))
  }

  /** Searching from a position on: the position found, or the text's length. */
  function Find(s: string, c: char, from: nat): (k: nat)
    requires from <= |s|
    ensures from <= k <= |s| && (k < |s| ==> s[k] == c)
  {
    from + Index(s[from..], c)
  }

  method ParseHeaderLine(plain: string, start: nat) returns (line: Outcome<HeaderLine>, next: nat)
    requires start < |plain|
    ensures match ParseLine(plain[start..])
            case Rejected(e) => line == Rejected(e)
            case Thrown => line == Thrown
            case Parsed(x) => line == Parsed(x.0) && start < next <= |plain| && plain[next..] == x.1
  {
    hide ToHeader, Index;
    next := start;
    var headerEnd := Find(plain, COLON, start);
    ghost var s := plain[start..];
    assert plain[start..headerEnd] == s[..headerEnd - start];
    if headerEnd == |plain| {
      return Rejected(ParsingMissingColonInHeader), next;
    }
    var header := ToHeader(plain[start..headerEnd]);
    if header == InvalidHeader {
      return Rejected(ParsingUnrecognizedHeader), next;
    }
    var valueStart := headerEnd + 1;
    assert plain[valueStart..] == s[valueStart - start..];
    if valueStart == |plain| {
      return Thrown, next;
    }
    if plain[valueStart] == NEW_LINE {
      return Rejected(ParsingEmptyHeaderValue), next;
    }
    var valueEnd := Find(plain, NEW_LINE, valueStart);
    if valueEnd == |plain| {
      return Rejected(ParsingMissingEolAfterHeaderValue), next;
    }
    assert plain[valueStart..valueEnd] == plain[valueStart..][..valueEnd - valueStart];
    assert plain[valueEnd + 1..] == plain[valueStart..][valueEnd + 1 - valueStart..];
    return Parsed(HeaderLine(header, plain[valueStart..valueEnd])), valueEnd + 1;
  }

  method ParseHeaderLines(plain: string, start: nat) returns (headers: Outcome<Headers>, end: nat)
    requires start <= |plain|
    ensures match ParseLines(plain[start..], map[])
            case Rejected(e) => headers == Rejected(e)
            case Thrown => headers == Thrown
            case Parsed(block) => headers == Parsed(block.headers) && end <= |plain| && plain[end..] == block.rest
  {
    hide ParseLine;
    var found: Headers := map[];
    end := start;
    while end < |plain| && plain[end] != NEW_LINE
      invariant start <= end <= |plain|
      invariant ParseLines(plain[start..], map[]) == ParseLines(plain[end..], found)
      decreases |plain| - end
    {
      var line, next := ParseHeaderLine(plain, end);
      if line.Rejected? {
        return Rejected(line.error), end;
      }
      if line.Thrown? {
        return Thrown, end;
      }
      if line.value.header !in found {
        found := found[line.value.header := line.value.value];
      }
      end := next;
    }
    return Parsed(found), end;
  }

  /** Where the body ends: found by its declared length, or by its NUL. */
  method FindBodyLength(plain: string, bodyStart: nat, headers: Headers) returns (length: Outcome<nat>)
    requires bodyStart <= |plain|
    ensures length == BodyLength(plain[bodyStart..], headers)
    ensures length.Parsed? ==> bodyStart + length.value < |plain|
  {
    hide Index;
    if ContentLength in headers {
      var bodyLength := 0;
      var number := Decimal.Read(headers[ContentLength]);
      if number.NoDigits? {
        return Rejected(ParsingInvalidContentLength);
      }
      if number.Fits? {
        bodyLength := number.n;
      }
      if bodyLength == |plain| - bodyStart {
        return Rejected(ParsingMissingNullInBody);
      }
      if bodyLength > |plain| - bodyStart {
        return Rejected(ParsingContentLengthExceedsFrameLength);
      }
      if plain[bodyStart + bodyLength] != NUL {
        return Rejected(ParsingMissingNullInBody);
      }
      return Parsed(bodyLength);
    } else {
      var bodyEnd := Find(plain, NUL, bodyStart);
      if bodyEnd == |plain| {
        return Rejected(ParsingMissingNullInBody);
      }
      return Parsed(bodyEnd - bodyStart);
    }
  }

  method ParseBodyFrom(plain: string, bodyStart: nat, headers: Headers) returns (body: Outcome<string>)
    requires bodyStart <= |plain|
    ensures body == ParseBody(plain[bodyStart..], headers)
  {
    hide BodyLength;
    var length := FindBodyLength(plain, bodyStart, headers);
    if length.Rejected? {
      return Rejected(length.error);
    }
    if length.Thrown? {
      return Thrown;
    }
    var bodyEnd := bodyStart + length.value;
    ghost var s := plain[bodyStart..];
    assert s[length.value + 1..] == plain[bodyEnd + 1..] && s[..length.value] == plain[bodyStart..bodyEnd];
    for idx := bodyEnd + 1 to |plain|
      invariant forall j :: bodyEnd < j < idx ==> plain[j] == NEW_LINE
    {
      if plain[idx] != NEW_LINE {
        assert plain[bodyEnd + 1..][idx - bodyEnd - 1] == plain[idx];
        return Rejected(ParsingJunkAfterBody);
      }
    }
    return Parsed(plain[bodyStart..bodyEnd]);
  }

  /** Prints a header map, taking its entries in whatever order they come. */
  method PrintFrame(command: StompCommand, headers: Headers, body: string)
    returns (plain: string)
    ensures exists lines :: Walks(lines, headers) && plain == Print(command, lines, body)
  {
    hide CommandText, HeaderText;
    ghost var lines := [];
    plain := CommandText(command) + [NEW_LINE];
    var rest := headers.Keys;
    while rest != {}
      invariant rest <= headers.Keys
      invariant plain == CommandText(command) + [NEW_LINE] + PrintLines(lines)
      invariant forall i, j :: 0 <= i < j < |lines| ==> lines[i].header != lines[j].header
      invariant forall l :: l in lines ==>
        l.header in headers && headers[l.header] == l.value && l.header !in rest
      invariant forall h :: h in headers && h !in rest ==> HeaderLine(h, headers[h]) in lines
      decreases rest
    {
      var h :| h in rest;
      rest := rest - {h};
      ghost var before := plain;
      plain := plain + HeaderText(h);
      plain := plain + [COLON];
      plain := plain + headers[h];
      plain := plain + [NEW_LINE];
      PrintLinesSnoc(lines, HeaderLine(h, headers[h]));
      assert plain == before + PrintLine(HeaderLine(h, headers[h]));
      lines := lines + [HeaderLine(h, headers[h])];
    }
    plain := plain + [NEW_LINE];
    plain := plain + body;
    plain := plain + [NUL];
    assert Walks(lines, headers) && plain == Print(command, lines, body);
  }

  lemma {:induction false} PrintLinesSnoc(lines: seq<HeaderLine>, l: HeaderLine)
    ensures PrintLines(lines + [l]) == PrintLines(lines) + PrintLine(l)
  {
    hide PrintLine;
    if lines == [] {
      assert PrintLines([l]) == PrintLine(l) + PrintLines([l][1..]);
    } else {
      PrintLinesSnoc(lines[1..], l);
      assert (lines + [l])[1..] == lines[1..] + [l];
    }
  }

  class StompFrame {
    var plain: string
    var command: StompCommand
    var headers: Headers
    var body: string

    /** An empty, invalid frame. */
    constructor ()
      ensures plain == "" && command == Invalid && headers == map[] && body == ""
    {
      plain, command, headers, body := "", Invalid, map[], "";
    }

    function Parts(): Parts
      reads this
    {
      Frames.Parts.Parts(command, headers, body)
    }

    /** Parses the plain text. The parts change only if all of it is accepted. */
    method ParseFrame() returns (code: Code)
      modifies this`command, this`headers, this`body
      ensures match Parse(plain)
              case Parsed(p) => code == Returned(Ok) && Parts() == p
              case Rejected(e) => code == Returned(e) && e != Ok && Parts() == old(Parts())
              case Thrown => code == Threw && Parts() == old(Parts())
    {
      hide CommandText, HeaderText, ToCommand, ToHeader, ParseLines, ParseBody;
      RejectedIsError(plain);
      var commandEnd := Find(plain, NEW_LINE, 0);
      assert plain[0..] == plain && plain[0..commandEnd] == plain[..commandEnd];
      if commandEnd == |plain| {
        return Returned(ParsingMissingEolAfterCommand);
      }
      var found := ToCommand(plain[0..commandEnd]);
      if found == Invalid {
        return Returned(ParsingUnrecognizedCommand);
      }
      var lines, newLineBeforeBody := ParseHeaderLines(plain, commandEnd + 1);
      if lines.Rejected? {
        return Returned(lines.error);
      }
      if lines.Thrown? {
        return Threw;
      }
      if newLineBeforeBody >= |plain| {
        return Returned(ParsingMissingBlankLineAfterHeaders);
      }
      assert plain[newLineBeforeBody..][1..] == plain[newLineBeforeBody + 1..];
      var content := ParseBodyFrom(plain, newLineBeforeBody + 1, lines.value);
      if content.Rejected? {
        return Returned(content.error);
      }
      if content.Thrown? {
        return Threw;
      }
      command, headers, body := found, lines.value, content.value;
      return Returned(Ok);
    }

    /** Validates the parts. `junk` is what the uninitialized length holds. */
    method ValidateFrame(junk: nat) returns (error: StompError)
      ensures error == Validate(Parts(), junk)
    {
      hide Decimal.Read;
      var hasAllHeaders := true;
      match command {
        case Connect | Stomp =>
          hasAllHeaders := hasAllHeaders && AcceptVersion in headers;
          hasAllHeaders := hasAllHeaders && Host in headers;
        case Connected =>
          hasAllHeaders := hasAllHeaders && Version in headers;
        case Send =>
          hasAllHeaders := hasAllHeaders && Destination in headers;
        case Subscribe =>
          hasAllHeaders := hasAllHeaders && Destination in headers;
          hasAllHeaders := hasAllHeaders && Id in headers;
        case Unsubscribe | Ack | Nack =>
          hasAllHeaders := hasAllHeaders && Id in headers;
        case Begin | Commit | Abort =>
          hasAllHeaders := hasAllHeaders && Transaction in headers;
        case Message =>
          hasAllHeaders := hasAllHeaders && Destination in headers;
          hasAllHeaders := hasAllHeaders && MessageId in headers;
          hasAllHeaders := hasAllHeaders && Subscription in headers;
        case Receipt =>
          hasAllHeaders := hasAllHeaders && ReceiptId in headers;
        case Disconnect | Error =>
        case Invalid =>
          return ValidationInvalidCommand;
      }
      if !hasAllHeaders {
        return ValidationMissingHeader;
      }
      if ContentLength in headers {
        var number := Decimal.Read(headers[ContentLength]);
        if number.NoDigits? {
          return ValidationInvalidContentLength;
        }
        var length := if number.Fits? then number.n else junk;
        if length != |body| {
          return ValidationContentLengthMismatch;
        }
      }
      return Ok;
    }

    method ParseAndValidateFrame(junk: nat) returns (code: Code)
      modifies this`command, this`headers, this`body
      ensures code == Check(plain, junk)
      ensures Parse(plain).Parsed? ==> Parts() == Parse(plain).value
      ensures !Parse(plain).Parsed? ==> Parts() == old(Parts())
    {
      hide Parse, Validate;
      code := ParseFrame();
      if code == Returned(Ok) {
        var error := ValidateFrame(junk);
        code := Returned(error);
      }
    }

    /** Building a frame from a text. */
    static method FromText(frame: string, junk: nat) returns (f: StompFrame, code: Code)
      ensures fresh(f) && f.plain == frame && code == Check(frame, junk)
      ensures Parse(frame).Parsed? ==> f.Parts() == Parse(frame).value
    {
      hide Parse, Validate;
      f := new StompFrame();
      f.plain := frame;
      code := f.ParseAndValidateFrame(junk);
    }

    /** Building a frame from its components: printed, and parsed again. */
    static method FromComponents(command: StompCommand, headers: Headers, body: string, junk: nat)
      returns (f: StompFrame, code: Code)
      ensures fresh(f) && exists lines :: Walks(lines, headers) && f.plain == Print(command, lines, body)
      ensures code == Check(f.plain, junk)
      ensures Printable(Frames.Parts.Parts(command, headers, body)) <==>
        Parse(f.plain) == Parsed(Frames.Parts.Parts(command, headers, body))
      ensures Parse(f.plain).Parsed? ==> f.Parts() == Parse(f.plain).value
    {
      hide Parse, Validate, Printable;
      f := new StompFrame();
      f.plain := PrintFrame(command, headers, body);
      ghost var lines :| Walks(lines, headers) && f.plain == Print(command, lines, body);
      RoundTrip(Frames.Parts.Parts(command, headers, body), lines);
      code := f.ParseAndValidateFrame(junk);
    }
  }

  /** No branch refuses a frame with the code for success. */
  lemma RejectedIsError(s: string)
    ensures Parse(s).Rejected? ==> Parse(s).error != Ok
  {
    hide CommandText, ToCommand, HeaderText, ToHeader, ParseLine;
    var k := Index(s, NEW_LINE);
    if k < |s| {
      LinesRejectedIsError(s[k + 1..], map[]);
    }
  }

  lemma {:induction false} LinesRejectedIsError(s: string, headers: Headers)
    ensures ParseLines(s, headers).Rejected? ==> ParseLines(s, headers).error != Ok
    decreases |s|
  {
    hide CommandText, ToCommand, HeaderText, ToHeader;
    if s != [] && s[0] != NEW_LINE && ParseLine(s).Parsed? {
      var x := ParseLine(s).value;
      ParseLineShrinks(s);
      LinesRejectedIsError(x.1, AddFirst(headers, x.0.header, x.0.value));
    }
  }

  lemma OkMeansParsed(s: string, junk: nat)
    ensures Check(s, junk) == Returned(Ok) ==> Parse(s).Parsed?
  {
    hide Parse;
    RejectedIsError(s);
  }
}
