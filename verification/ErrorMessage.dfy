/** The libxml error handler: it assembles a message in a fixed buffer by repeated `snprintf`,
    whose return value is the length the text would have had without truncation. */
module ErrorMessage {
  import opened Common
  import opened Text

  const MSG_SIZE: nat := 1024

  datatype Domain = XPath | Parser | Other

  /** The parts of an xmlError the handler uses; an absent part is a null pointer. */
  datatype XmlError = XmlError(domain: Domain, file: Option<string>, line: int,
                               message: Option<string>, str1: Option<string>, str2: Option<string>,
                               str3: Option<string>)

  function Heading(d: Domain): string {
    match d
    case XPath => "Error evaluating xpath query:\n"
    case Parser => "Error parsing xml file:\n"
    case Other => "Other error:\n"
  }

  /** The `%d` conversion. */
  function Signed(n: int): string {
    if n < 0 then "-" + Decimal(-n) else Decimal(n)
  }

  function Located(e: XmlError): string {
    if e.file.Some? then e.file.value + ":" + Signed(e.line) + ": " else ""
  }

  function Plain(part: Option<string>): string {
    if part.Some? then part.value else ""
  }

  function Detail(part: Option<string>): string {
    if part.Some? then ": " + part.value else ""
  }

  /** The message in full, as it would be without any limit. */
  function FullMessage(e: XmlError): string {
    Heading(e.domain) + Located(e) + Plain(e.message) + Detail(e.str1) + Detail(e.str2) + Detail(e.str3)
  }

  /** A part that is there, with its punctuation. */
  function Present(before: string, part: Option<string>): seq<string> {
    if part.Some? then [before + part.value] else []
  }

  /** The parts that are there, in this order. */
  function Parts(e: XmlError): seq<string> {
    (if e.file.Some? then [e.file.value + ":" + Signed(e.line) + ": "] else [])
    + Present("", e.message) + Present(": ", e.str1) + Present(": ", e.str2) + Present(": ", e.str3)
  }

  function Concat(parts: seq<string>): string {
    if parts == [] then "" else Concat(parts[..|parts| - 1]) + parts[|parts| - 1]
  }

  lemma ConcatPresent(parts: seq<string>, before: string, part: Option<string>)
    ensures Concat(parts + Present(before, part)) == Concat(parts) + if part.Some? then before + part.value else ""
  {
    if part.Some? {
      assert (parts + [before + part.value])[..|parts|] == parts;
    } else {
      assert parts + [] == parts && Concat(parts) + "" == Concat(parts);
    }
  }

  /** The full message, written out: the heading of the domain, and the parts that are there in order.
      A number is printed so that it reads back. */
  lemma MessageWrittenOut(e: XmlError)
    ensures FullMessage(e) ==
            (match e.domain
             case XPath => "Error evaluating xpath query:\n"
             case Parser => "Error parsing xml file:\n"
             case Other => "Other error:\n") + Concat(Parts(e))
    ensures e.line >= 0 ==> Signed(e.line) == Decimal(e.line) && ValueOf(Signed(e.line)) == e.line
    ensures e.line < 0 ==> Signed(e.line) == "-" + Decimal(-e.line) && ValueOf(Signed(e.line)[1..]) == -e.line
  {
    DecimalReadsBack(if e.line < 0 then -e.line else e.line);
    PartsConcat(e);
    WrittenOut(Heading(e.domain), Located(e), Plain(e.message), Detail(e.str1), Detail(e.str2), Detail(e.str3));
  }

  lemma PartsConcat(e: XmlError)
    ensures Concat(Parts(e)) == Located(e) + Plain(e.message) + Detail(e.str1) + Detail(e.str2) + Detail(e.str3)
  {
    var file: seq<string> := if e.file.Some? then [e.file.value + ":" + Signed(e.line) + ": "] else [];
    assert Concat(file) == Located(e) by {
      assert e.file.Some? ==> file[..0] == [] && "" + file[0] == file[0];
    }
    var message := file + Present("", e.message);
    ConcatPresent(file, "", e.message);
    assert e.message.Some? ==> "" + e.message.value == e.message.value;
    var one := message + Present(": ", e.str1);
    ConcatPresent(message, ": ", e.str1);
    ConcatPresent(one, ": ", e.str2);
    ConcatPresent(one + Present(": ", e.str2), ": ", e.str3);
  }

  lemma WrittenOut(h: string, l: string, m: string, a: string, b: string, c: string)
    ensures h + l + m + a + b + c == h + (l + m + a + b + c)
  {
  }

  function Min(a: nat, b: nat): nat {
    if a < b then a else b
  }

  predicate NoNul(s: string) {
    NUL !in s
  }

  predicate PartNoNul(part: Option<string>) {
    part.Some? ==> NoNul(part.value)
  }

  /** C strings hold no NUL. */
  predicate WellFormed(e: XmlError) {
    PartNoNul(e.file) && PartNoNul(e.message) && PartNoNul(e.str1) && PartNoNul(e.str2) && PartNoNul(e.str3)
  }

  lemma {:induction false} CStringOfTerminated(s: string, rest: string)
    requires NoNul(s)
    ensures CString(s + [NUL] + rest) == s
  {
    var t := s + [NUL] + rest;
    if s != [] {
      assert t[1..] == s[1..] + [NUL] + rest;
      CStringOfTerminated(s[1..], rest);
    }
  }

  lemma {:induction false} DecimalNoNul(n: nat)
    ensures NoNul(Decimal(n))
  {
    if n >= 10 {
      DecimalNoNul(n / 10);
    }
  }

  lemma FullMessageNoNul(e: XmlError)
    requires WellFormed(e)
    ensures NoNul(FullMessage(e))
  {
    DecimalNoNul(if e.line < 0 then -e.line else e.line);
    assert NoNul(Located(e)) && NoNul(Heading(e.domain));
  }

  /** The buffer holds the text, cut to what fits and terminated. */
  ghost predicate Holds(msg: array<char>, text: string)
    requires msg.Length == MSG_SIZE
    reads msg
  {
    var kept := Min(|text|, MSG_SIZE - 1);
    msg[..kept] == text[..kept] && msg[kept] == NUL
  }

  /** `snprintf(msg + pos, msg_size - pos, ...)` of a text that has been formatted. */
  method Snprintf(msg: array<char>, pos: nat, text: string) returns (length: nat)
    requires pos < msg.Length
    modifies msg
    ensures length == |text|
    ensures var kept := Min(|text|, msg.Length - pos - 1);
            && msg[..pos] == old(msg[..pos])
            && msg[pos..pos + kept] == text[..kept]
            && msg[pos + kept] == NUL
            && msg[pos + kept + 1..] == old(msg[pos + kept + 1..])
  {
    var kept := Min(|text|, msg.Length - pos - 1);
    forall i | 0 <= i < kept {
      msg[pos + i] := text[i];
    }
    msg[pos + kept] := NUL;
    length := |text|;
  }

  /** The buffer after the text so far: its cut-off form. `pos` is the length of the text, or
      stopped growing when the buffer was already full. */
  ghost predicate Reached(msg: array<char>, text: string, pos: nat)
    reads msg
  {
    && msg.Length == MSG_SIZE
    && (pos == |text| || MSG_SIZE <= pos <= |text|)
    && Holds(msg, text)
  }

  /** One guarded append of the handler, of a part that may be absent. Once the buffer is full
      nothing more is written, and the buffer is what the longer text would have left there. */
  method AppendIfPresent(msg: array<char>, pos: nat, present: bool, part: string, ghost soFar: string)
    returns (next: nat)
    requires Reached(msg, soFar, pos)
    requires !present ==> part == ""
    modifies msg
    ensures Reached(msg, soFar + part, next)
  {
    next := pos;
    ghost var text := soFar + part;
    if present && pos < MSG_SIZE {
      var length := Snprintf(msg, pos, part);
      next := pos + length;
      ghost var kept := Min(next, MSG_SIZE - 1);
      assert msg[..kept] == msg[..pos] + msg[pos..kept];
    } else if present {
      assert text[..MSG_SIZE - 1] == soFar[..MSG_SIZE - 1];
    } else {
      assert text == soFar;
    }
  }

  /** The appends of the handler, up to handing the buffer to Lua. */
  method Assemble(msg: array<char>, e: XmlError)
    requires msg.Length == MSG_SIZE
    modifies msg
    ensures Holds(msg, FullMessage(e))
  {
    var pos := Snprintf(msg, 0, Heading(e.domain));
    ghost var text := Heading(e.domain);
    assert |text| <= 30;
    assert msg[..|text|] == msg[0..0 + |text|];
    assert Reached(msg, text, pos);
    pos := AppendIfPresent(msg, pos, e.file.Some?, Located(e), text);
    text := text + Located(e);
    pos := AppendIfPresent(msg, pos, e.message.Some?, Plain(e.message), text);
    text := text + Plain(e.message);
    pos := AppendIfPresent(msg, pos, e.str1.Some?, Detail(e.str1), text);
    text := text + Detail(e.str1);
    pos := AppendIfPresent(msg, pos, e.str2.Some?, Detail(e.str2), text);
    text := text + Detail(e.str2);
    pos := AppendIfPresent(msg, pos, e.str3.Some?, Detail(e.str3), text);
  }

  /** `structuredErrorHandler`: whatever the lengths of the parts, the string handed to Lua is the
      full message cut to 1023 characters. */
  method StructuredErrorHandler(e: XmlError) returns (pushed: string)
    requires WellFormed(e)
    ensures pushed == FullMessage(e)[..Min(|FullMessage(e)|, 1023)]
  {
    var msg := new char[MSG_SIZE];
    Assemble(msg, e);
    pushed := CString(msg[..]);
    FullMessageNoNul(e);
    BufferReads(msg, FullMessage(e));
  }

  lemma BufferReads(msg: array<char>, text: string)
    requires msg.Length == MSG_SIZE && Holds(msg, text) && NoNul(text)
    ensures CString(msg[..]) == text[..Min(|text|, MSG_SIZE - 1)]
  {
    var kept := Min(|text|, MSG_SIZE - 1);
    assert msg[..] == msg[..kept] + [NUL] + msg[kept + 1..];
    CStringOfTerminated(text[..kept], msg[kept + 1..]);
  }
}
