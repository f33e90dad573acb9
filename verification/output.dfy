/**
 * The diagnostic record every fallible operation reports (src/output.rs): which
 * process failed, what it was doing, and a human-readable message, printed as two
 * lines whose second line is indented to sit under the first line's message.
 */
module Output {

  import opened Wrappers
  import opened Strings

  datatype Message = Message(process: string, activity: string, message: string)

  /** `Message::new`: the three texts are stored as given. */
  function New(process: string, activity: string, message: string): (m: Message)
    ensures m.process == process && m.activity == activity && m.message == message
  {
    Message(process, activity, message)
  }

  /** `Error::description`: the human-readable message alone. */
  function Description(m: Message): (d: string)
    ensures New(m.process, m.activity, d) == m
  {
    m.message
  }

  /** The `[process]` tag that opens the first line. */
  function Tag(process: string): string
  {
    "[" + process + "]"
  }

  /** First line: the tag, one space, the message. */
  function FirstLine(m: Message): string
  {
    Tag(m.process) + " " + m.message + "\n"
  }

  /** Second line: padding as wide as the tag, then the activity. */
  function SecondLine(m: Message): string
  {
    Spaces(|m.process| + 2) + " while " + m.activity + "\n"
  }

  /** `Display::fmt`: the two lines, one after the other. */
  function Display(m: Message): (text: string)
    ensures |text| == 2 * |m.process| + |m.message| + |m.activity| + 14
    ensures text[..|FirstLine(m)|] == FirstLine(m)
    ensures text[|FirstLine(m)|..] == SecondLine(m)
  {
    FirstLine(m) + SecondLine(m)
  }

  /** The column (counted in characters) where the message starts on the first line. */
  function MessageColumn(m: Message): nat
  {
    |Tag(m.process)| + 1
  }

  /**
   * The padding of the second line is exactly as wide as the tag on the first, so
   * "while" starts in the same column as the message does.
   */
  lemma DisplayAlignment(m: Message)
    ensures |Spaces(|m.process| + 2)| == |Tag(m.process)|
    ensures FirstLine(m)[..MessageColumn(m)] == Tag(m.process) + " "
    ensures SecondLine(m)[..MessageColumn(m)] == Spaces(MessageColumn(m))
    ensures SecondLine(m)[MessageColumn(m)..MessageColumn(m) + 6] == "while "
    ensures FirstLine(m)[MessageColumn(m)..|FirstLine(m)| - 1] == m.message
  {
    var pad := Spaces(|m.process| + 2);
    assert SecondLine(m) == pad + (" while " + m.activity + "\n");
    assert SecondLine(m)[..MessageColumn(m)] == pad + " ";
    assert Spaces(MessageColumn(m)) == pad + " ";
  }

  /** A message whose display can be read back unambiguously. */
  predicate Readable(m: Message)
  {
    ']' !in m.process && '\n' !in m.message
  }

  /** Reads a displayed message back into its three parts; the inverse of `Display`. */
  function ParseDisplay(text: string): Option<Message>
  {
    if |text| == 0 || text[0] != '[' then None
    else match IndexOf(text, ']', 1)
      case None => None
      case Some(close) =>
        var process := text[1..close];
        if close + 1 >= |text| || text[close + 1] != ' ' then None
        else match IndexOf(text, '\n', close + 2)
          case None => None
          case Some(eol) =>
            var message := text[close + 2..eol];
            var rest := text[eol + 1..];
            var lead := Spaces(|process| + 2) + " while ";
            if |rest| < |lead| + 1 || rest[..|lead|] != lead || rest[|rest| - 1] != '\n' then None
            else Some(Message(process, rest[|lead|..|rest| - 1], message))
  }

  /** The closing bracket of a tag is the first one after the opening bracket. */
  lemma TagCloseFound(process: string, rest: string)
    requires ']' !in process
    ensures var text := "[" + process + "]" + rest;
            && text[1..|process| + 1] == process
            && IndexOf(text, ']', 1) == Some(|process| + 1)
  {
    var text := "[" + process + "]" + rest;
    assert text[1..|process| + 1] == process;
    IndexOfFirst(text, ']', 1, |process| + 1);
  }

  /** The newline ending a line without newlines is the first one after its start. */
  lemma LineEndFound(head: string, line: string, rest: string)
    requires '\n' !in line
    ensures IndexOf(head + line + "\n" + rest, '\n', |head|) == Some(|head| + |line|)
    ensures (head + line + "\n" + rest)[|head|..|head| + |line|] == line
    ensures (head + line + "\n" + rest)[|head| + |line| + 1..] == rest
  {
    var tail := line + "\n" + rest;
    var text := head + tail;
    assert text == head + line + "\n" + rest;
    var k := |head| + |line|;
    assert text[|head|..k] == tail[..|line|] == line;
    assert text[k] == tail[|line|] == '\n';
    assert text[k + 1..] == tail[|line| + 1..] == rest;
    IndexOfFirst(text, '\n', |head|, k);
  }

  /** The first line's delimiters sit where `ParseDisplay` looks for them. */
  lemma DisplayFirstLine(m: Message)
    requires Readable(m)
    ensures var text := Display(m);
            var close := |m.process| + 1;
            var eol := close + 2 + |m.message|;
            && |text| > eol
            && text[0] == '[' && text[1..close] == m.process
            && IndexOf(text, ']', 1) == Some(close) && text[close + 1] == ' '
            && IndexOf(text, '\n', close + 2) == Some(eol) && text[close + 2..eol] == m.message
            && text[eol + 1..] == SecondLine(m)
  {
    var head := "[" + m.process + "] ";
    var tail := " " + m.message + "\n" + SecondLine(m);
    assert Display(m) == "[" + m.process + "]" + tail by {
      assert FirstLine(m) == "[" + m.process + "]" + " " + m.message + "\n";
    }
    TagCloseFound(m.process, tail);
    assert Display(m) == head + m.message + "\n" + SecondLine(m);
    LineEndFound(head, m.message, SecondLine(m));
  }

  /** The second line is the fixed lead, the activity and a newline. */
  lemma DisplaySecondLine(m: Message)
    ensures var rest := SecondLine(m);
            var lead := Spaces(|m.process| + 2) + " while ";
            && |rest| >= |lead| + 1
            && rest[..|lead|] == lead
            && rest[|rest| - 1] == '\n'
            && rest[|lead|..|rest| - 1] == m.activity
  {
    var lead := Spaces(|m.process| + 2) + " while ";
    assert SecondLine(m) == lead + m.activity + "\n";
  }

  lemma ParseDisplayRoundTrip(m: Message)
    requires Readable(m)
    ensures ParseDisplay(Display(m)) == Some(m)
  {
    DisplayFirstLine(m);
    DisplaySecondLine(m);
  }

  /** Two readable messages that display the same are the same message. */
  lemma DisplayInjective(m1: Message, m2: Message)
    requires Readable(m1) && Readable(m2)
    requires Display(m1) == Display(m2)
    ensures m1 == m2
  {
    ParseDisplayRoundTrip(m1);
    ParseDisplayRoundTrip(m2);
  }

  // ---------------------------------------------------------------------------
  // Conversions from library errors (the `From` impls). Library texts (an error's
  // description, its `Debug` or `Display` rendering) are carried as opaque strings.
  // ---------------------------------------------------------------------------

  const IO_PROCESS := "IO Operation"
  const WEB_PROCESS := "Web Request"
  const YAML_PROCESS := "Reading YAML File"
  const NO_MESSAGE := "No Message"

  /** `std::io::Error`: the `Debug` name of its kind and, when it wraps one, the inner error's description. */
  datatype IoError = IoError(kindName: string, inner: Option<string>)

  /** `reqwest::Error`: the two variants the conversion inspects, and every other variant. */
  datatype ReqwestError = Http(description: string) | Serialize(description: string) | OtherReqwest

  /** `rustc_serialize::json::ParserError`: a syntax error with its position, or an I/O error. */
  datatype JsonError = SyntaxError(codeDebug: string, line: nat, col: nat) | JsonIo(io: IoError)

  /** `yaml_rust::ScanError`: its `description()` and its `Display` text. */
  datatype ScanError = ScanError(description: string, shown: string)

  function FromIoError(err: IoError): (m: Message)
    ensures m.process == IO_PROCESS && m.activity == err.kindName
    ensures err.inner.Some? ==> m.message == err.inner.value
    ensures err.inner.None? ==> m.message == NO_MESSAGE
  {
    var message := match err.inner
      case Some(d) => d
      case None => Description(New("", "", NO_MESSAGE));
    Message(IO_PROCESS, err.kindName, message)
  }

  function FromReqwestError(err: ReqwestError): (m: Message)
    ensures m.process == WEB_PROCESS && m.activity == "Serialisation"
    ensures err.OtherReqwest? ==> m.message == "Redirect Error"
    ensures !err.OtherReqwest? ==> m.message == err.description
  {
    match err
    case Http(d) => New(WEB_PROCESS, "Serialisation", d)
    case Serialize(d) => New(WEB_PROCESS, "Serialisation", d)
    case OtherReqwest => New(WEB_PROCESS, "Serialisation", "Redirect Error")
  }

  /** The text of a JSON syntax error: `{:?} at line: {}, col: {}`. */
  function SyntaxErrorText(codeDebug: string, line: nat, col: nat): string
  {
    codeDebug + " at line: " + Decimal(line) + ", col: " + Decimal(col)
  }

  function FromJsonError(err: JsonError): (m: Message)
    ensures err.SyntaxError? ==> m.process == WEB_PROCESS && m.activity == "Parsing JSON Response"
    ensures err.SyntaxError? ==> m.message == SyntaxErrorText(err.codeDebug, err.line, err.col)
    ensures err.JsonIo? ==> m == FromIoError(err.io)
  {
    match err
    case SyntaxError(code, line, col) => New(WEB_PROCESS, "Parsing JSON Response", SyntaxErrorText(code, line, col))
    case JsonIo(io) => FromIoError(io)
  }

  /** The position inside a JSON syntax error's message can be read back from it. */
  lemma SyntaxErrorPosition(codeDebug: string, line: nat, col: nat)
    ensures var text := SyntaxErrorText(codeDebug, line, col);
            var lineAt := |codeDebug| + 10;
            var lineEnd := lineAt + |Decimal(line)|;
            && text[..|codeDebug|] == codeDebug
            && text[|codeDebug|..lineAt] == " at line: "
            && DecimalValue(text[lineAt..lineEnd]) == line
            && text[lineEnd..lineEnd + 7] == ", col: "
            && DecimalValue(text[lineEnd + 7..]) == col
  {
    var text := SyntaxErrorText(codeDebug, line, col);
    assert text == codeDebug + " at line: " + Decimal(line) + ", col: " + Decimal(col);
    var lineAt := |codeDebug| + 10;
    var lineEnd := lineAt + |Decimal(line)|;
    assert text[lineAt..lineEnd] == Decimal(line);
    assert text[lineEnd + 7..] == Decimal(col);
  }

  function FromScanError(err: ScanError): (m: Message)
    ensures m.process == YAML_PROCESS && m.activity == err.description && m.message == err.shown
  {
    New(YAML_PROCESS, err.description, err.shown)
  }
}
