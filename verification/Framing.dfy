/** Messages on a byte stream: a header with the length, an empty line, the content. Bytes are characters. */
module Framing {

  import opened Wrappers

  const LENGTH_FIELD := "Content-Length:"
  const TYPE_FIELD := "Content-Type:"

  // ----- Decimal numbers ---------------------------------------------------------------

  predicate IsDigit(c: char) { '0' <= c <= '9' }

  function DigitOf(d: nat): (c: char)
    requires d < 10
    ensures IsDigit(c) && ValueOf(c) == d
  {
    ('0' as int + d) as char
  }

  function ValueOf(c: char): nat
    requires IsDigit(c)
  {
    c as int - '0' as int
  }

  function Decimal(n: nat): string {
    if n < 10 then [DigitOf(n)] else Decimal(n / 10) + [DigitOf(n % 10)]
  }

  /** The digits in front, as a number; `acc` is what came before. */
  function LeadingNumber(text: string, acc: nat): nat
    decreases |text|
  {
    if text == [] || !IsDigit(text[0]) then acc else LeadingNumber(text[1..], acc * 10 + ValueOf(text[0]))
  }

  const SIZE_LIMIT := 0x1_0000_0000_0000_0000

  /** There is a digit, and the number fits a size. What stands behind the digits does not matter. */
  function ParseSize(text: string): Option<nat> {
    if text == [] || !IsDigit(text[0]) || LeadingNumber(text, 0) >= SIZE_LIMIT then None
    else Some(LeadingNumber(text, 0))
  }

  predicate AllDigits(text: string) {
    forall i :: 0 <= i < |text| ==> IsDigit(text[i])
  }

  predicate StartsNoDigit(text: string) {
    text != [] ==> !IsDigit(text[0])
  }

  lemma {:induction false} LeadingNumberOfAppended(text: string, d: char, rest: string, acc: nat)
    requires AllDigits(text) && IsDigit(d) && StartsNoDigit(rest)
    ensures LeadingNumber(text + [d] + rest, acc) == LeadingNumber(text, acc) * 10 + ValueOf(d)
    decreases |text|
  {
    if text == [] {
      assert (text + [d] + rest)[1..] == rest;
    } else {
      assert (text + [d] + rest)[1..] == text[1..] + [d] + rest;
      LeadingNumberOfAppended(text[1..], d, rest, acc * 10 + ValueOf(text[0]));
    }
  }

  lemma {:induction false} DecimalIsDigits(n: nat)
    ensures AllDigits(Decimal(n)) && Decimal(n) != []
  {
    if n >= 10 { DecimalIsDigits(n / 10); }
  }

  /** Reading a printed number gives the number. */
  lemma {:induction false} DecimalReadsBack(n: nat, rest: string)
    requires StartsNoDigit(rest)
    ensures LeadingNumber(Decimal(n) + rest, 0) == n
  {
    if n < 10 {
      assert Decimal(n) + rest == [] + [DigitOf(n)] + rest;
      LeadingNumberOfAppended([], DigitOf(n), rest, 0);
    } else {
      DecimalIsDigits(n / 10);
      LeadingNumberOfAppended(Decimal(n / 10), DigitOf(n % 10), rest, 0);
      DecimalReadsBack(n / 10, []);
      assert Decimal(n / 10) + [] == Decimal(n / 10);
    }
  }

  // ----- Header lines ------------------------------------------------------------------

  predicate IsSpace(c: char) {
    c == ' ' || '\t' <= c <= '\r'
  }

  function SkipSpaces(text: string): (r: string)
    decreases |text|
  {
    if text != [] && IsSpace(text[0]) then SkipSpaces(text[1..]) else text
  }

  datatype Line = Length(value: nat) | Ignored | End | InvalidLength | InvalidLine

  function LineMeaning(line: string): Line {
    if LENGTH_FIELD <= line then
      match ParseSize(SkipSpaces(line[|LENGTH_FIELD|..]))
      case Some(n) => Length(n)
      case None => InvalidLength
    else if TYPE_FIELD <= line then Ignored
    else if line == [] then Ignored
    else if line == "\r" then End
    else InvalidLine
  }

  /** What stands in front of the first line feed. */
  function FirstLine(text: string): (r: string)
    ensures |r| <= |text| && r == text[..|r|] && '\n' !in r
    ensures |r| < |text| ==> text[|r|] == '\n'
  {
    if text == [] || text[0] == '\n' then [] else [text[0]] + FirstLine(text[1..])
  }

  lemma {:induction false} FirstLineOf(line: string, rest: string)
    requires '\n' !in line
    ensures FirstLine(line + "\n" + rest) == line
  {
    var text := line + "\n" + rest;
    if line != [] {
      assert text[0] == line[0] && text[1..] == line[1..] + "\n" + rest;
      FirstLineOf(line[1..], rest);
    }
  }

  lemma {:induction false} OneMoreInLine(line: string, rest: string)
    requires rest != [] && rest[0] != '\n'
    ensures line + FirstLine(rest) == line + [rest[0]] + FirstLine(rest[1..])
    ensures line + rest == line + [rest[0]] + rest[1..]
  {
    assert FirstLine(rest) == [rest[0]] + FirstLine(rest[1..]);
  }

  lemma {:induction false} LineEnds(text: string, line: string, rest: string)
    requires text == line + rest && FirstLine(text) == line + FirstLine(rest) && (rest == [] || rest[0] == '\n')
    ensures FirstLine(text) == line && (|line| == |text| <==> rest == [])
    ensures rest != [] ==> text[|line| + 1..] == rest[1..]
  {
    assert FirstLine(rest) == [] && line + [] == line;
  }

  /** `Stuck` is the loop that goes on for ever once the stream has ended without a line that decides. */
  datatype Header = Header(length: nat, rest: string) | Failed(line: Line) | Stuck

  function ReadHeader(text: string, length: nat): Header
    decreases |text|
  {
    var line := FirstLine(text);
    match LineMeaning(line)
    case InvalidLength => Failed(InvalidLength)
    case InvalidLine => Failed(InvalidLine)
    case End => Header(length, if |line| < |text| then text[|line| + 1..] else [])
    case Length(n) => if |line| < |text| then ReadHeader(text[|line| + 1..], n) else Stuck
    case Ignored => if |line| < |text| then ReadHeader(text[|line| + 1..], length) else Stuck
  }

  // ----- Messages ----------------------------------------------------------------------

  /** What reading a message leads to, and what is left in the stream. */
  datatype Outcome = Message(content: string, rest: string) | Rejected(line: Line) | NeverReturns

  function Zeros(n: nat): string {
    seq(n, _ => '\0')
  }

  /** Content missing at the end of the stream is filled with zeros. */
  function ReadMessage(text: string): Outcome {
    match ReadHeader(text, 0)
    case Header(length, rest) =>
      if length <= |rest| then Message(rest[..length], rest[length..]) else Message(rest + Zeros(length - |rest|), [])
    case Failed(line) => Rejected(line)
    case Stuck => NeverReturns
  }

  function Frame(content: string): string {
    "Content-Length: " + Decimal(|content|) + "\r\n" + "\r\n" + content
  }

  /** A header field as other writers may send it; the digits may have zeros in front. */
  datatype Field = LengthField(spaces: string, digits: string, tail: string) | TypeField(text: string) | Blank

  predicate IsField(f: Field) {
    match f
    case LengthField(spaces, digits, tail) =>
      && (forall i :: 0 <= i < |spaces| ==> IsSpace(spaces[i]) && spaces[i] != '\n')
      && AllDigits(digits) && digits != [] && LeadingNumber(digits, 0) < SIZE_LIMIT
      && StartsNoDigit(tail) && '\n' !in tail
    case TypeField(text) => '\n' !in text
    case Blank => true
  }

  function LineOf(f: Field): string {
    match f
    case LengthField(spaces, digits, tail) => LENGTH_FIELD + (spaces + (digits + tail))
    case TypeField(text) => TYPE_FIELD + text
    case Blank => ""
  }

  function FieldBytes(fields: seq<Field>): string {
    if fields == [] then [] else LineOf(fields[0]) + "\n" + FieldBytes(fields[1..])
  }

  function LastLength(fields: seq<Field>, default: nat): nat {
    if fields == [] then default
    else LastLength(fields[1..], LengthAfter(fields[0], default))
  }

  function LengthAfter(f: Field, before: nat): nat {
    if f.LengthField? then LeadingNumber(f.digits, 0) else before
  }

  lemma {:induction false} SpacesSkipped(spaces: string, rest: string)
    requires (forall i :: 0 <= i < |spaces| ==> IsSpace(spaces[i])) && rest != [] && !IsSpace(rest[0])
    ensures SkipSpaces(spaces + rest) == rest
  {
    if spaces == [] {
      assert spaces + rest == rest;
    } else {
      assert (spaces + rest)[1..] == spaces[1..] + rest;
      SpacesSkipped(spaces[1..], rest);
    }
  }

  lemma {:induction false} NumberEnds(digits: string, tail: string, acc: nat)
    requires AllDigits(digits) && StartsNoDigit(tail)
    ensures LeadingNumber(digits + tail, acc) == LeadingNumber(digits, acc)
    decreases |digits|
  {
    if digits == [] {
      assert digits + tail == tail;
    } else {
      assert (digits + tail)[1..] == digits[1..] + tail;
      NumberEnds(digits[1..], tail, acc * 10 + ValueOf(digits[0]));
    }
  }

  lemma {:induction false} FieldMeans(f: Field)
    requires IsField(f)
    ensures LineMeaning(LineOf(f)) == if f.LengthField? then Length(LeadingNumber(f.digits, 0)) else Ignored
  {
    match f {
      case LengthField(spaces, digits, tail) =>
        NumberEnds(digits, tail, 0);
        assert (digits + tail)[0] == digits[0];
        SpacesSkipped(spaces, digits + tail);
        assert LineOf(f)[|LENGTH_FIELD|..] == spaces + (digits + tail);
      case TypeField(text) =>
        assert LineOf(f)[8] == 'T' && LENGTH_FIELD[8] == 'L';
      case Blank =>
    }
  }

  lemma {:induction false} FieldHasNoLineFeed(f: Field)
    requires IsField(f)
    ensures '\n' !in LineOf(f)
  {
  }

  /** For every list of fields the last length counts, and reading stops behind the empty line. */
  lemma {:induction false} HeaderReadsBack(fields: seq<Field>, length: nat, rest: string)
    requires forall i :: 0 <= i < |fields| ==> IsField(fields[i])
    ensures ReadHeader(FieldBytes(fields) + "\r\n" + rest, length) == Header(LastLength(fields, length), rest)
    decreases |fields|
  {
    if fields == [] {
      assert FieldBytes(fields) + "\r\n" + rest == "\r" + "\n" + rest;
      FirstLineOf("\r", rest);
      assert LineMeaning("\r") == End;
    } else {
      var line := LineOf(fields[0]);
      var behind := FieldBytes(fields[1..]) + "\r\n" + rest;
      assert FieldBytes(fields) + "\r\n" + rest == line + "\n" + behind;
      FieldMeans(fields[0]);
      FieldHasNoLineFeed(fields[0]);
      FirstLineOf(line, behind);
      assert (line + "\n" + behind)[|line| + 1..] == behind;
      HeaderReadsBack(fields[1..], LengthAfter(fields[0], length), rest);
    }
  }

  function FrameField(content: string): Field {
    LengthField(" ", Decimal(|content|), "\r")
  }

  lemma {:induction false} FrameFieldIsField(content: string)
    requires |content| < SIZE_LIMIT
    ensures IsField(FrameField(content)) && LengthAfter(FrameField(content), 0) == |content|
  {
    DecimalIsDigits(|content|);
    DecimalReadsBack(|content|, []);
    assert Decimal(|content|) + [] == Decimal(|content|);
  }

  lemma {:induction false} FrameHasOneField(content: string, rest: string)
    ensures Frame(content) + rest == FieldBytes([FrameField(content)]) + "\r\n" + (content + rest)
  {
    var n := Decimal(|content|);
    var fields := [FrameField(content)];
    assert fields[1..] == [];
    assert FieldBytes(fields) == LENGTH_FIELD + (" " + (n + "\r")) + "\n";
    assert "Content-Length: " == LENGTH_FIELD + " ";
  }

  /** A written frame is read back, whatever the content, and nothing behind it is touched. */
  lemma {:induction false} FrameReadsBack(content: string, rest: string)
    requires |content| < SIZE_LIMIT
    ensures ReadMessage(Frame(content) + rest) == Message(content, rest)
  {
    var field := FrameField(content);
    FrameFieldIsField(content);
    FrameHasOneField(content, rest);
    HeaderReadsBack([field], 0, content + rest);
    assert LastLength([field], 0) == |content|;
    assert (content + rest)[..|content|] == content && (content + rest)[|content|..] == rest;
  }

  // ----- How reading ends --------------------------------------------------------------

  /** The lines of the text, with the unterminated last one. */
  function LinesOf(text: string): seq<string>
    decreases |text|
  {
    var line := FirstLine(text);
    [line] + if |line| < |text| then LinesOf(text[|line| + 1..]) else []
  }

  /** The line does not end the reading of a header. */
  predicate GoesOn(line: string) {
    LineMeaning(line).Length? || LineMeaning(line).Ignored?
  }

  /** The position of the first line that ends the reading; behind the last line if there is none. */
  function Deciding(lines: seq<string>): (k: nat)
    ensures k <= |lines| && (forall i :: 0 <= i < k ==> GoesOn(lines[i])) && (k < |lines| ==> !GoesOn(lines[k]))
  {
    if lines == [] || !GoesOn(lines[0]) then 0 else Deciding(lines[1..]) + 1
  }

  /** How the first deciding line ends the reading of the header. */
  lemma {:induction false} HeaderEndsAtDecidingLine(text: string, length: nat)
    ensures var lines := LinesOf(text);
            var k := Deciding(lines);
            && (ReadHeader(text, length).Stuck? <==> k == |lines|)
            && (ReadHeader(text, length).Header? <==> k < |lines| && LineMeaning(lines[k]).End?)
            && (ReadHeader(text, length).Failed? ==>
                 k < |lines| && ReadHeader(text, length).line == LineMeaning(lines[k]))
    decreases |text|
  {
    var line := FirstLine(text);
    if GoesOn(line) && |line| < |text| {
      var rest := text[|line| + 1..];
      HeaderEndsAtDecidingLine(rest, if LineMeaning(line).Length? then LineMeaning(line).value else length);
      assert LinesOf(text)[1..] == LinesOf(rest);
    }
  }

  /** Reading never returns exactly when every line, the unterminated last one included, gives a length or is
      ignored. */
  lemma {:induction false} NeverReturnsExactlyWhen(text: string)
    ensures ReadMessage(text) == NeverReturns <==> forall i :: 0 <= i < |LinesOf(text)| ==> GoesOn(LinesOf(text)[i])
  {
    HeaderEndsAtDecidingLine(text, 0);
  }

  /** It is rejected exactly when the first deciding line is invalid, and for that reason. */
  lemma {:induction false} RejectedExactlyWhen(text: string, line: Line)
    ensures var lines := LinesOf(text);
            ReadMessage(text) == Rejected(line) <==>
              line != End && Deciding(lines) < |lines| && LineMeaning(lines[Deciding(lines)]) == line
  {
    HeaderEndsAtDecidingLine(text, 0);
  }

  /** A stream of one line without a line feed. */
  lemma {:induction false} OneLineText(line: string)
    requires '\n' !in line
    ensures ReadHeader(line, 0) == (match LineMeaning(line)
                                    case InvalidLength => Failed(InvalidLength)
                                    case InvalidLine => Failed(InvalidLine)
                                    case End => Header(0, [])
                                    case _ => Stuck)
    ensures LineMeaning(line).End? ==> ReadMessage(line) == Message([], [])
  {
    hide LineMeaning;
    var r := FirstLine(line);
    assert |r| == |line| && r == line;
  }

  /** The line of a length whose digits are cut off. */
  lemma {:induction false} UnfinishedLength(digits: string)
    requires digits != [] ==> !IsSpace(digits[0])
    ensures LineMeaning(LENGTH_FIELD + " " + digits)
            == match ParseSize(digits) case Some(n) => Length(n) case None => InvalidLength
  {
    var line := LENGTH_FIELD + " " + digits;
    assert line[|LENGTH_FIELD|..] == " " + digits;
    if digits == [] {
      assert (" " + digits)[1..] == [];
      assert SkipSpaces(" " + digits) == SkipSpaces([]) == [];
    } else {
      SpacesSkipped(" ", digits);
    }
  }

  /** Streams that end inside a header: sometimes reading never returns, sometimes it does. */
  lemma {:induction false} EndedStreams()
    ensures ReadMessage("") == NeverReturns && ReadMessage("Content-Length: 5") == NeverReturns
    ensures ReadMessage("Cont") == Rejected(InvalidLine) && ReadMessage("Content-Length: ") == Rejected(InvalidLength)
    ensures ReadMessage("\r") == Message("", [])
  {
    EndedLines();
    hide LineMeaning;
    OneLineText("");
    OneLineText("\r");
    OneLineText("Cont");
    OneLineText("Content-Length: ");
    OneLineText("Content-Length: 5");
  }

  lemma {:induction false} EndedLines()
    ensures LineMeaning("") == Ignored && LineMeaning("\r") == End && LineMeaning("Cont") == InvalidLine
    ensures LineMeaning("Content-Length: ") == InvalidLength && LineMeaning("Content-Length: 5") == Length(5)
  {
    assert "Cont"[0] == 'C';
    UnfinishedLength([]);
    UnfinishedLength("5");
    assert LENGTH_FIELD + " " + [] == "Content-Length: ";
    assert LENGTH_FIELD + " " + "5" == "Content-Length: 5";
    assert LeadingNumber("5"[1..], ValueOf('5')) == 5;
  }

  // ----- Lines by their literal names --------------------------------------------------

  lemma {:induction false} FirstLineDecides(line: string, rest: string)
    requires '\n' !in line
    ensures LineMeaning(line).Ignored? ==> ReadMessage(line + "\n" + rest) == ReadMessage(rest)
    ensures LineMeaning(line).InvalidLength? ==> ReadMessage(line + "\n" + rest) == Rejected(InvalidLength)
    ensures LineMeaning(line).InvalidLine? ==> ReadMessage(line + "\n" + rest) == Rejected(InvalidLine)
  {
    hide LineMeaning;
    FirstLineOf(line, rest);
    assert (line + "\n" + rest)[|line| + 1..] == rest;
  }

  /** A content type is skipped, whatever it says. */
  lemma {:induction false} ContentTypeIsSkipped(text: string, rest: string)
    requires '\n' !in text
    ensures ReadMessage("Content-Type:" + text + "\n" + rest) == ReadMessage(rest)
  {
    var line := "Content-Type:" + text;
    assert line[8] == 'T' && LENGTH_FIELD[8] == 'L';
    assert TYPE_FIELD <= line;
    FirstLineDecides(line, rest);
  }

  /** A length that does not start with a digit is rejected, and so is one that does not fit 64 bits. */
  lemma {:induction false} BadLengthIsRejected(text: string, rest: string)
    requires '\n' !in text && (text != [] ==> !IsSpace(text[0]))
    requires text == [] || !('0' <= text[0] <= '9') || LeadingNumber(text, 0) >= 0x1_0000_0000_0000_0000
    ensures ReadMessage("Content-Length: " + text + "\n" + rest) == Rejected(InvalidLength)
  {
    assert "Content-Length: " == LENGTH_FIELD + " ";
    UnfinishedLength(text);
    FirstLineDecides("Content-Length: " + text, rest);
  }

  /** A line with another field name is rejected, and so is any other line but an empty one. */
  lemma {:induction false} OtherLineIsRejected(line: string, rest: string)
    requires '\n' !in line && line != "" && line != "\r"
    requires !("Content-Length:" <= line) && !("Content-Type:" <= line)
    ensures ReadMessage(line + "\n" + rest) == Rejected(InvalidLine)
  {
    FirstLineDecides(line, rest);
  }

  // ----- Contents that are cut off -----------------------------------------------------

  lemma {:induction false} OutcomeBehindHeader(text: string, n: nat, rest: string)
    requires ReadHeader(text, 0) == Header(n, rest)
    ensures ReadMessage(text) == if n <= |rest| then Message(rest[..n], rest[n..])
                                 else Message(rest + Zeros(n - |rest|), [])
    ensures |ReadMessage(text).content| == n
    ensures ReadMessage(text).content <= rest <==> n <= |rest|
  {
    hide ReadHeader;
  }

  /** The length that counts: the last one that the lines give. */
  function LengthGiven(lines: seq<string>, default: nat): nat {
    if lines == [] then default
    else LengthGiven(lines[1..], if LineMeaning(lines[0]).Length? then LineMeaning(lines[0]).value else default)
  }

  /** What stands behind the first `k` lines and their line feeds; the last line may have none. */
  function BehindLines(text: string, k: nat): string {
    if k == 0 then text
    else if |FirstLine(text)| < |text| then BehindLines(text[|FirstLine(text)| + 1..], k - 1)
    else []
  }

  lemma {:induction false} HeaderBehindDecidingLine(text: string, length: nat)
    ensures var lines := LinesOf(text);
            var k := Deciding(lines);
            k < |lines| && LineMeaning(lines[k]).End? ==>
              ReadHeader(text, length) == Header(LengthGiven(lines[..k], length), BehindLines(text, k + 1))
    decreases |text|
  {
    hide LineMeaning;
    var line := FirstLine(text);
    var lines := LinesOf(text);
    var k := Deciding(lines);
    if k < |lines| && LineMeaning(lines[k]).End? {
      if k == 0 {
        assert lines[..k] == [];
      } else {
        var rest := text[|line| + 1..];
        var more := LinesOf(rest);
        assert lines[1..] == more && Deciding(more) == k - 1;
        var length' := if LineMeaning(line).Length? then LineMeaning(line).value else length;
        assert ReadHeader(text, length) == ReadHeader(rest, length');
        HeaderBehindDecidingLine(rest, length');
        hide LinesOf, ReadHeader, Deciding, FirstLine;
        assert lines[..k][0] == line && lines[..k][1..] == more[..k - 1];
      }
    }
  }

  /** For every stream: a message is read exactly when the first deciding line is the empty one of the header, and it is
      a piece of the stream exactly when the length that counts does not exceed what is left; otherwise what is left is
      filled up with zeros. */
  lemma {:induction false} PaddedExactlyWhenShort(text: string)
    ensures var k := Deciding(LinesOf(text));
            ReadMessage(text).Message? <==> k < |LinesOf(text)| && LineMeaning(LinesOf(text)[k]).End?
    ensures ReadMessage(text).Message? ==>
              var k := Deciding(LinesOf(text));
              var n := LengthGiven(LinesOf(text)[..k], 0);
              var rest := BehindLines(text, k + 1);
              && ReadMessage(text) == (if n <= |rest| then Message(rest[..n], rest[n..])
                                       else Message(rest + Zeros(n - |rest|), []))
              && (ReadMessage(text).content <= rest <==> n <= |rest|)
  {
    HeaderEndsAtDecidingLine(text, 0);
    HeaderBehindDecidingLine(text, 0);
    hide LineMeaning, ReadHeader, LinesOf, Deciding, LengthGiven, BehindLines;
    if ReadHeader(text, 0).Header? {
      OutcomeBehindHeader(text, ReadHeader(text, 0).length, ReadHeader(text, 0).rest);
    }
  }

  const FIELD_AND_SPACE := |LENGTH_FIELD| + 1

  /** What becomes of the first `k` bytes of a frame. */
  function CutOutcome(content: string, k: nat): Outcome {
    var digits := FIELD_AND_SPACE + |Decimal(|content|)|;
    if k == 0 then NeverReturns
    else if k < |LENGTH_FIELD| then Rejected(InvalidLine)
    else if k <= FIELD_AND_SPACE then Rejected(InvalidLength)
    else if k <= digits + 2 then NeverReturns
    else if k == digits + 3 then Message(Zeros(|content|), [])
    else if k - (digits + 4) <= |content|
         then Message(content[..k - (digits + 4)] + Zeros(|content| - (k - (digits + 4))), [])
    else Message(content, [])
  }

  lemma {:induction false} DecimalPrefix(n: nat, k: nat)
    requires 0 < k <= |Decimal(n)|
    ensures AllDigits(Decimal(n)[..k]) && LeadingNumber(Decimal(n)[..k], 0) <= n
  {
    DecimalIsDigits(n);
    if k == |Decimal(n)| {
      assert Decimal(n)[..k] == Decimal(n) + [];
      DecimalReadsBack(n, []);
    } else {
      assert n >= 10 && Decimal(n)[..k] == Decimal(n / 10)[..k];
      DecimalPrefix(n / 10, k);
    }
  }

  lemma {:induction false} NotAField(k: nat)
    requires 0 < k < |LENGTH_FIELD|
    ensures LineMeaning(LENGTH_FIELD[..k]) == InvalidLine
  {
    var line := LENGTH_FIELD[..k];
    assert line[0] == 'C';
    assert k > 8 ==> line[8] == LENGTH_FIELD[8];
    assert LENGTH_FIELD[8] == 'L' && TYPE_FIELD[8] == 'T';
  }

  lemma {:induction false} FrameStarts(content: string, k: nat)
    requires k <= FIELD_AND_SPACE
    ensures k <= |Frame(content)| && Frame(content)[..k] == (LENGTH_FIELD + " ")[..k]
  {
    assert "Content-Length: " == LENGTH_FIELD + " ";
  }

  /** Cut inside the field: the line is no field yet, or has no number yet. */
  lemma {:induction false} FieldCutMeans(k: nat)
    requires k <= FIELD_AND_SPACE
    ensures LineMeaning((LENGTH_FIELD + " ")[..k])
         == if k == 0 then Ignored else if k < |LENGTH_FIELD| then InvalidLine else InvalidLength
  {
    var line := (LENGTH_FIELD + " ")[..k];
    if k == 0 {
    } else if k < |LENGTH_FIELD| {
      assert line == LENGTH_FIELD[..k];
      NotAField(k);
    } else if k == |LENGTH_FIELD| {
      assert line == LENGTH_FIELD && line[|LENGTH_FIELD|..] == [];
    } else {
      assert line == LENGTH_FIELD + " " + [];
      UnfinishedLength([]);
    }
  }

  lemma {:induction false} CutInField(content: string, k: nat)
    requires k <= FIELD_AND_SPACE
    ensures k <= |Frame(content)| && ReadMessage(Frame(content)[..k]) == CutOutcome(content, k)
  {
    FrameStarts(content, k);
    FieldCutMeans(k);
    hide Frame, LineMeaning;
    assert '\n' !in (LENGTH_FIELD + " ")[..k];
    OneLineText((LENGTH_FIELD + " ")[..k]);
  }

  /** Cut inside the digits, before or behind the carriage return: the line gives a length, and the stream has ended. */
  lemma {:induction false} CutInLine(content: string, k: nat)
    requires |content| < SIZE_LIMIT && FIELD_AND_SPACE < k <= FIELD_AND_SPACE + |Decimal(|content|)| + 1
    ensures k <= |Frame(content)| && ReadMessage(Frame(content)[..k]) == CutOutcome(content, k)
  {
    var n := Decimal(|content|);
    var digits := (n + "\r")[..k - FIELD_AND_SPACE];
    var line := LENGTH_FIELD + " " + digits;
    assert Frame(content)[..k] == line by { assert "Content-Length: " == LENGTH_FIELD + " "; }
    DecimalIsDigits(|content|);
    assert '\n' !in line;
    OneLineText(line);
    UnfinishedLength(digits);
    if |digits| <= |n| {
      assert digits == n[..|digits|];
      DecimalPrefix(|content|, |digits|);
    } else {
      assert digits == n + "\r";
      DecimalReadsBack(|content|, "\r");
    }
  }

  lemma {:induction false} BehindFirstLine(content: string, behind: string)
    requires |content| < SIZE_LIMIT
    ensures ReadHeader(LENGTH_FIELD + " " + Decimal(|content|) + "\r" + "\n" + behind, 0)
            == ReadHeader(behind, |content|)
  {
    var field := FrameField(content);
    var line := LineOf(field);
    assert LENGTH_FIELD + " " + Decimal(|content|) + "\r" == line;
    FrameFieldIsField(content);
    FieldMeans(field);
    FieldHasNoLineFeed(field);
    FirstLineOf(line, behind);
    hide LineMeaning, LineOf;
    assert (line + "\n" + behind)[|line| + 1..] == behind;
  }

  lemma {:induction false} FrameCutBehindLine(content: string, behind: string)
    requires behind <= "\r"
    ensures var k := FIELD_AND_SPACE + |Decimal(|content|)| + 2 + |behind|;
            k <= |Frame(content)| &&
                Frame(content)[..k] == LENGTH_FIELD + " " + Decimal(|content|) + "\r" + "\n" + behind
  {
    assert "Content-Length: " == LENGTH_FIELD + " ";
  }

  /** Cut behind the first line: its length counts, and an empty line that is not finished ends the header, too. */
  lemma {:induction false} CutBehindLine(content: string, behind: string, k: nat)
    requires |content| < SIZE_LIMIT && behind <= "\r" && k == FIELD_AND_SPACE + |Decimal(|content|)| + 2 + |behind|
    ensures k <= |Frame(content)| && ReadMessage(Frame(content)[..k]) == CutOutcome(content, k)
  {
    EndedLines();
    hide LineMeaning;
    FrameCutBehindLine(content, behind);
    hide Frame;
    BehindFirstLine(content, behind);
    assert behind == "" || behind == "\r";
    LastLine(behind, |content|);
    assert [] + Zeros(|content|) == Zeros(|content|);
  }

  lemma {:induction false} LastLine(line: string, length: nat)
    requires '\n' !in line && (LineMeaning(line).End? || LineMeaning(line).Ignored?)
    ensures ReadHeader(line, length) == if LineMeaning(line).End? then Header(length, []) else Stuck
  {
    hide LineMeaning;
    var r := FirstLine(line);
    assert |r| == |line| && r == line;
  }

  lemma {:induction false} CutContentIsPadded(content: string, k: nat)
    requires |content| < SIZE_LIMIT && FIELD_AND_SPACE + |Decimal(|content|)| + 4 <= k <= |Frame(content)|
    ensures ReadMessage(Frame(content)[..k]) == CutOutcome(content, k)
  {
    hide ReadHeader;
    var field := FrameField(content);
    FrameHasOneField(content, []);
    var header := FieldBytes([field]) + "\r\n";
    assert Frame(content) + [] == Frame(content) && content + [] == content;
    assert Frame(content) == header + content;
    assert |header| == FIELD_AND_SPACE + |Decimal(|content|)| + 4;
    var m := k - |header|;
    assert Frame(content)[..k] == header + content[..m];
    FrameFieldIsField(content);
    assert LastLength([field], 0) == |content|;
    HeaderReadsBack([field], 0, content[..m]);
    OutcomeBehindHeader(header + content[..m], |content|, content[..m]);
  }

  /** For every frame and every place where the stream may end in it. */
  lemma {:induction false} CutFrame(content: string, k: nat)
    requires |content| < SIZE_LIMIT && k <= |Frame(content)|
    ensures ReadMessage(Frame(content)[..k]) == CutOutcome(content, k)
  {
    if k <= FIELD_AND_SPACE {
      CutInField(content, k);
    } else if k <= FIELD_AND_SPACE + |Decimal(|content|)| + 1 {
      CutInLine(content, k);
    } else if k <= FIELD_AND_SPACE + |Decimal(|content|)| + 3 {
      CutBehindLine(content, if k == FIELD_AND_SPACE + |Decimal(|content|)| + 2 then "" else "\r", k);
    } else {
      CutContentIsPadded(content, k);
    }
  }

  /** A frame that is cut off is read as the whole message exactly when the cut leaves at least the header without its
      last line feed, and what it takes from the content are zeros. */
  lemma {:induction false} CutIsHarmlessExactlyWhen(content: string, k: nat)
    requires |content| < SIZE_LIMIT && k <= |Frame(content)|
    ensures var header := |Frame(content)| - |content|;
            var kept := if k < header then 0 else k - header;
            ReadMessage(Frame(content)[..k]) == Message(content, []) <==>
              k >= header - 1 && forall i :: kept <= i < |content| ==> content[i] == '\0'
  {
    CutFrame(content, k);
    var header := |Frame(content)| - |content|;
    var kept := if k < header then 0 else k - header;
    assert header == FIELD_AND_SPACE + |Decimal(|content|)| + 4;
    if k >= header - 1 {
      assert CutOutcome(content, k).content == content[..kept] + Zeros(|content| - kept);
      ZerosAreRest(content, kept);
    }
  }

  lemma {:induction false} ZerosAreRest(content: string, kept: nat)
    requires kept <= |content|
    ensures content[..kept] + Zeros(|content| - kept) == content <==>
            forall i :: kept <= i < |content| ==> content[i] == '\0'
  {
    var padded := content[..kept] + Zeros(|content| - kept);
    if padded == content {
      forall i | kept <= i < |content|
        ensures content[i] == '\0'
      {
        assert padded[i] == Zeros(|content| - kept)[i - kept];
      }
    }
  }

  function FramesOf(contents: seq<string>): string {
    if contents == [] then [] else FramesOf(contents[..|contents| - 1]) + Frame(contents[|contents| - 1])
  }

  function JoinedFrames(contents: seq<string>): string {
    if contents == [] then [] else Frame(contents[0]) + JoinedFrames(contents[1..])
  }

  lemma {:induction false} FramesAreJoined(contents: seq<string>)
    ensures FramesOf(contents) == JoinedFrames(contents)
  {
    if contents != [] {
      JoinedAppended(contents[..|contents| - 1], contents[|contents| - 1]);
      FramesAreJoined(contents[..|contents| - 1]);
      assert contents == contents[..|contents| - 1] + [contents[|contents| - 1]];
    }
  }

  lemma {:induction false} JoinedAppended(contents: seq<string>, last: string)
    ensures JoinedFrames(contents + [last]) == JoinedFrames(contents) + Frame(last)
  {
    if contents == [] {
      assert (contents + [last])[1..] == [];
    } else {
      assert (contents + [last])[1..] == contents[1..] + [last];
      JoinedAppended(contents[1..], last);
    }
  }

  // ----- The writer and the reader -----------------------------------------------------

  class StreamMessageWriter {
    var output: string

    constructor (output: string)
      ensures this.output == output
    {
      this.output := output;
    }

    method Write(content: string)
      modifies this
      ensures output == old(output) + Frame(content)
    {
      output := output + "Content-Length: " + Decimal(|content|) + "\r\n";
      output := output + "\r\n";
      output := output + content;
    }
  }

  class StreamMessageReader {
    /** What is still to come. */
    var input: string

    constructor (input: string)
      ensures this.input == input
    {
      this.input := input;
    }

    /** Takes a line out of the stream; `ended` when the stream ended instead of a line feed. */
    method GetLine() returns (line: string, ended: bool)
      modifies this
      ensures line == FirstLine(old(input)) && ended == (|line| == |old(input)|)
      ensures input == if ended then [] else old(input)[|line| + 1..]
    {
      hide FirstLine;
      line := [];
      ghost var text := input;
      while input != [] && input[0] != '\n'
        invariant FirstLine(text) == line + FirstLine(input) && text == line + input
        decreases |input|
      {
        OneMoreInLine(line, input);
        line, input := line + [input[0]], input[1..];
      }
      LineEnds(text, line, input);
      ended := input == [];
      if !ended { input := input[1..]; }
    }

    /** The number behind the field name and any spaces. */
    method ParseLengthLine(line: string) returns (length: Option<nat>)
      requires LENGTH_FIELD <= line
      ensures length == ParseSize(SkipSpaces(line[|LENGTH_FIELD|..]))
    {
      var offset := |LENGTH_FIELD|;
      while offset < |line| && IsSpace(line[offset])
        invariant offset <= |line| && SkipSpaces(line[|LENGTH_FIELD|..]) == SkipSpaces(line[offset..])
      {
        assert line[offset..][1..] == line[offset + 1..];
        offset := offset + 1;
      }
      length := ParseSize(line[offset..]);
    }

    method Understand(line: string) returns (meaning: Line)
      ensures meaning == LineMeaning(line)
    {
      if LENGTH_FIELD <= line {
        var parsed := ParseLengthLine(line);
        return if parsed.Some? then Length(parsed.value) else InvalidLength;
      } else if TYPE_FIELD <= line {
        return Ignored;
      } else if line == [] {
        return Ignored;
      } else if line == "\r" {
        return End;
      }
      return InvalidLine;
    }

    method ReadHeaderLines() returns (header: Header)
      modifies this
      ensures header == ReadHeader(old(input), 0)
      ensures header.Header? ==> input == header.rest
    {
      hide LineMeaning, FirstLine;
      var length := 0;
      ghost var text := input;
      while true
        invariant ReadHeader(text, 0) == ReadHeader(input, length)
        decreases |input|
      {
        var line, ended := GetLine();
        var meaning := Understand(line);
        match meaning {
          case InvalidLength => return Failed(InvalidLength);
          case InvalidLine => return Failed(InvalidLine);
          case End => return Header(length, input);
          case Length(n) => length := n;
          case Ignored =>
        }
        if ended { return Stuck; }
      }
    }

    method Read() returns (outcome: Outcome)
      modifies this
      ensures outcome == ReadMessage(old(input))
      ensures outcome.Message? ==> input == outcome.rest
    {
      var header := ReadHeaderLines();
      match header {
        case Stuck => return NeverReturns;
        case Failed(line) => return Rejected(line);
        case Header(length, rest) =>
          var content;
          if length <= |input| {
            content, input := input[..length], input[length..];
          } else {
            content, input := input + Zeros(length - |input|), [];
          }
          outcome := Message(content, input);
      }
    }
  }

  method WriteAll(writer: StreamMessageWriter, contents: seq<string>)
    requires writer.output == []
    modifies writer
    ensures writer.output == FramesOf(contents)
  {
    hide Frame;
    for i := 0 to |contents|
      invariant writer.output == FramesOf(contents[..i])
    {
      assert contents[..i + 1][..i] == contents[..i];
      writer.Write(contents[i]);
    }
    assert contents[..|contents|] == contents;
  }

  method ReadAll(reader: StreamMessageReader, count: nat, ghost contents: seq<string>) returns (received: seq<string>)
    requires reader.input == JoinedFrames(contents) && count == |contents|
    requires forall i :: 0 <= i < |contents| ==> |contents[i]| < SIZE_LIMIT
    modifies reader
    ensures received == contents && reader.input == []
  {
    hide Frame, ReadMessage;
    received := [];
    ghost var rest := contents;
    while |received| < count
      invariant received + rest == contents && reader.input == JoinedFrames(rest)
      invariant forall i :: 0 <= i < |rest| ==> |rest[i]| < SIZE_LIMIT
      decreases |rest|
    {
      FrameReadsBack(rest[0], JoinedFrames(rest[1..]));
      var outcome := reader.Read();
      received := received + [outcome.content];
      rest := rest[1..];
    }
  }

  /** A reader gets from a stream just what a writer put there, message by message. */
  method WriteThenRead(contents: seq<string>) returns (received: seq<string>)
    requires forall i :: 0 <= i < |contents| ==> |contents[i]| < SIZE_LIMIT
    ensures received == contents
  {
    var writer := new StreamMessageWriter("");
    WriteAll(writer, contents);
    FramesAreJoined(contents);
    var reader := new StreamMessageReader(writer.output);
    received := ReadAll(reader, |contents|, contents);
  }
}
