/** Server-sent events: the event stream interpretation of the WHATWG HTML standard, sections 9.2.5
    (parsing an event stream) and 9.2.6 (interpreting an event stream). */
module Sse {
  import opened Prelude

  const LF: char := '\n'
  const CR: char := '\r'
  const NUL: char := '\0'

  /** A dispatched event: its type, its data and the last event ID at that moment. */
  datatype Event = Event(kind: string, data: string, lastId: string)

  /** The buffers of the interpreter, which are empty for each new stream, and what lasts beyond one: the last
      event ID, set when a blank line is read, and the events dispatched. */
  datatype Client = Client(data: string, kind: string, idBuffer: string, lastId: string, events: seq<Event>)

  const CONNECTED := Client("", "", "", "", [])

  /** A new stream for a client. */
  function Reconnected(c: Client): Client {
    Client("", "", "", c.lastId, c.events)
  }

  predicate LineChars(s: string) {
    LF !in s && CR !in s
  }

  /** Length of the text before the first line end. */
  function LineLength(s: string): (n: nat)
    ensures n <= |s| && LineChars(s[..n])
    ensures n < |s| ==> s[n] == LF || s[n] == CR
  {
    if s == "" || s[0] == LF || s[0] == CR then 0 else 1 + LineLength(s[1..])
  }

  /** The lines of a stream: each ends with CR LF, LF or CR. What follows the last line end is pending
      and can dispatch nothing. */
  function StreamLines(s: string): seq<string>
    decreases |s|
  {
    var n := LineLength(s);
    if n == |s| then []
    else if s[n] == CR && n + 1 < |s| && s[n + 1] == LF then [s[..n]] + StreamLines(s[n + 2..])
    else [s[..n]] + StreamLines(s[n + 1..])
  }

  /** Position of the first colon, or the length of a line without one. */
  function Colon(line: string): (n: nat)
    ensures n <= |line| && ':' !in line[..n] && (n < |line| ==> line[n] == ':')
  {
    if line == "" || line[0] == ':' then 0 else 1 + Colon(line[1..])
  }

  /** Dispatch on a blank line: the last event ID is set, and then nothing when the data buffer is empty. */
  function Dispatch(c: Client): Client {
    if c.data == "" then c.(kind := "", lastId := c.idBuffer)
    else
      var data := if c.data[|c.data| - 1] == LF then c.data[..|c.data| - 1] else c.data;
      Client("", "", c.idBuffer, c.idBuffer, c.events + [Event(c.kind, data, c.idBuffer)])
  }

  function Field(c: Client, name: string, value: string): Client {
    if name == "event" then c.(kind := value)
    else if name == "data" then c.(data := c.data + value + [LF])
    else if name == "id" then if NUL in value then c else c.(idBuffer := value)
    else c
  }

  function Feed(c: Client, line: string): Client {
    if line == "" then Dispatch(c)
    else
      var n := Colon(line);
      if n == 0 then c
      else if n == |line| then Field(c, line, "")
      else
        var value := line[n + 1..];
        Field(c, line[..n], if value != "" && value[0] == ' ' then value[1..] else value)
  }

  function FeedAll(c: Client, lines: seq<string>): Client
    decreases |lines|
  {
    if lines == [] then c else FeedAll(Feed(c, lines[0]), lines[1..])
  }

  /** A client reading a whole stream; a leading byte order mark is not part of the model. */
  function Interpret(c: Client, stream: string): Client {
    FeedAll(c, StreamLines(stream))
  }

  lemma {:induction false} LineLengthOf(line: string, rest: string)
    requires LineChars(line)
    ensures LineLength(line + [LF] + rest) == |line|
  {
    var s := line + [LF] + rest;
    if line != "" {
      assert s[0] == line[0];
      assert s[1..] == line[1..] + [LF] + rest;
      LineLengthOf(line[1..], rest);
    }
  }

  /** A complete line is fed first, then the rest of the stream. */
  lemma InterpretLine(c: Client, line: string, rest: string)
    requires LineChars(line)
    ensures Interpret(c, line + [LF] + rest) == Interpret(Feed(c, line), rest)
  {
    var s := line + [LF] + rest;
    LineLengthOf(line, rest);
    assert s[..|line|] == line && s[|line| + 1..] == rest;
    assert StreamLines(s)[1..] == StreamLines(rest);
  }

  lemma FeedField(c: Client, name: string, value: string)
    requires name != "" && ':' !in name
    ensures Feed(c, name + ": " + value) == Field(c, name, value)
  {
    var line := name + ": " + value;
    ColonAfter(name, " " + value);
    assert line == name + ":" + (" " + value);
    assert line[..|name|] == name && line[|name| + 1..] == " " + value;
    assert (" " + value)[1..] == value;
  }

  lemma {:induction false} ColonAfter(name: string, rest: string)
    requires ':' !in name
    ensures Colon(name + ":" + rest) == |name|
  {
    if name != "" {
      var line := name + ":" + rest;
      assert line[0] == name[0] && line[1..] == name[1..] + ":" + rest;
      ColonAfter(name[1..], rest);
    }
  }

  /** An item a server writes: an event with its id if it has one, or a ping comment. */
  datatype Item = Message(id: string, hasId: bool, data: string) | Ping

  /** The bytes of an item, as FormatSSE.FormatEntry, SSEFormat and the ping of Reader.Read write them. */
  function Print(item: Item): string {
    match item
    case Message(id, hasId, data) => (if hasId then "id: " + id + "\n" else "") + "data: " + data + "\n\n"
    case Ping => ": ping\n\n"
  }

  function PrintAll(items: seq<Item>): string {
    if items == [] then "" else Print(items[0]) + PrintAll(items[1..])
  }

  /** The content of an item survives one line: no line ends in it, and no NUL in its id. */
  predicate Printable(item: Item) {
    item.Message? ==> LineChars(item.data) && (item.hasId ==> LineChars(item.id) && NUL !in item.id)
  }

  /** The last event ID buffer after an item. */
  function IdAfter(item: Item, idBuffer: string): string {
    if item.Message? && item.hasId then item.id else idBuffer
  }

  /** The events of the items: none for a ping, and a message without an id carries the last one. */
  function Received(items: seq<Item>, lastId: string): seq<Event> {
    if items == [] then []
    else
      match items[0]
      case Ping => Received(items[1..], lastId)
      case Message(_, _, data) =>
        var now := IdAfter(items[0], lastId);
        [Event("", data, now)] + Received(items[1..], now)
  }

  /** The last event ID buffer after the items. */
  function LastId(items: seq<Item>, lastId: string): string {
    if items == [] then lastId else LastId(items[1..], IdAfter(items[0], lastId))
  }

  lemma InterpretPing(c: Client, rest: string)
    requires c.data == "" && c.kind == ""
    ensures Interpret(c, Print(Ping) + rest) == Interpret(c.(lastId := c.idBuffer), rest)
  {
    var tail := [LF] + rest;
    assert Print(Ping) + rest == ": ping" + [LF] + tail;
    InterpretLine(c, ": ping", tail);
    assert tail == "" + [LF] + rest;
    InterpretLine(c, "", rest);
  }

  lemma DataLines(data: string, rest: string)
    ensures "data: " + data + "\n\n" + rest == ("data" + ": " + data) + [LF] + ("" + [LF] + rest)
  {
    var line := "data: " + data;
    assert line == "data" + ": " + data;
    assert line + "\n\n" + rest == line + [LF] + ("" + [LF] + rest);
  }

  lemma DispatchData(c: Client, data: string)
    requires c.data == "" && c.kind == ""
    ensures Feed(Field(c, "data", data), "")
         == c.(lastId := c.idBuffer, events := c.events + [Event("", data, c.idBuffer)])
  {
    assert c.data + data + [LF] == data + [LF];
    assert (data + [LF])[..|data|] == data;
  }

  lemma InterpretData(c: Client, data: string, rest: string)
    requires c.data == "" && c.kind == "" && LineChars(data)
    ensures Interpret(c, "data: " + data + "\n\n" + rest)
         == Interpret(c.(lastId := c.idBuffer, events := c.events + [Event("", data, c.idBuffer)]), rest)
  {
    DataLines(data, rest);
    InterpretLine(c, "data" + ": " + data, "" + [LF] + rest);
    FeedField(c, "data", data);
    InterpretLine(Field(c, "data", data), "", rest);
    DispatchData(c, data);
  }

  lemma InterpretId(c: Client, id: string, rest: string)
    requires LineChars(id) && NUL !in id
    ensures Interpret(c, "id: " + id + "\n" + rest) == Interpret(c.(idBuffer := id), rest)
  {
    assert "id: " + id + "\n" + rest == ("id" + ": " + id) + [LF] + rest;
    InterpretLine(c, "id" + ": " + id, rest);
    FeedField(c, "id", id);
  }

  /** What an item makes of a client between two events. */
  function Took(c: Client, item: Item): Client {
    var id := IdAfter(item, c.idBuffer);
    c.(idBuffer := id, lastId := id, events := c.events + Received([item], c.idBuffer))
  }

  lemma InterpretItem(c: Client, item: Item, rest: string)
    requires c.data == "" && c.kind == "" && Printable(item)
    ensures Interpret(c, Print(item) + rest) == Interpret(Took(c, item), rest)
  {
    assert [item][1..] == [];
    match item
    case Ping =>
      InterpretPing(c, rest);
      assert Received([Ping], c.idBuffer) == Received([], c.idBuffer) == [];
      assert c.events + [] == c.events;
    case Message(id, hasId, data) =>
      if hasId {
        InterpretNamed(c, id, data, rest);
      } else {
        assert Print(item) == "data: " + data + "\n\n";
        InterpretData(c, data, rest);
      }
      assert Received([item], c.idBuffer) == [Event("", data, IdAfter(item, c.idBuffer))];
  }

  lemma InterpretNamed(c: Client, id: string, data: string, rest: string)
    requires c.data == "" && c.kind == "" && LineChars(data) && LineChars(id) && NUL !in id
    ensures Interpret(c, Print(Message(id, true, data)) + rest)
         == Interpret(c.(idBuffer := id, lastId := id, events := c.events + [Event("", data, id)]), rest)
  {
    var body := "data: " + data + "\n\n";
    assert Print(Message(id, true, data)) + rest == "id: " + id + "\n" + (body + rest);
    InterpretId(c, id, body + rest);
    InterpretData(c.(idBuffer := id), data, rest);
  }

  /** What the items make of a client between two events: the messages are dispatched with their ids, and every
      blank line, also that of a ping, copies the last event ID buffer to the last event ID. */
  function Heard(c: Client, items: seq<Item>): Client {
    var id := LastId(items, c.idBuffer);
    Client("", "", id, if items == [] then c.lastId else id, c.events + Received(items, c.idBuffer))
  }

  lemma HeardFirst(c: Client, items: seq<Item>)
    requires c.data == "" && c.kind == "" && items != []
    ensures Heard(c, items) == Heard(Took(c, items[0]), items[1..])
  {
    assert [items[0]][1..] == [];
    var id := IdAfter(items[0], c.idBuffer);
    assert Received(items, c.idBuffer) == Received([items[0]], c.idBuffer) + Received(items[1..], id);
    Regroup(c.events, Received([items[0]], c.idBuffer), Received(items[1..], id));
  }

  /** Round trip: a client of the printed stream receives exactly the messages, with their ids, and no
      pings; nothing is left pending. */
  lemma {:induction false} InterpretPrinted(c: Client, items: seq<Item>)
    requires c.data == "" && c.kind == ""
    requires forall i :: 0 <= i < |items| ==> Printable(items[i])
    ensures Interpret(c, PrintAll(items)) == Heard(c, items)
    decreases |items|
  {
    if items == [] {
      assert c.events + [] == c.events;
    } else {
      InterpretItem(c, items[0], PrintAll(items[1..]));
      HeardFirst(c, items);
      InterpretPrinted(Took(c, items[0]), items[1..]);
    }
  }

  /** The last event ID and the events of two clients are the same; what is pending may differ. */
  predicate SoundsLike(c: Client, d: Client) {
    c.lastId == d.lastId && c.events == d.events
  }

  lemma FeedKeeps(c: Client, line: string)
    requires line != ""
    ensures SoundsLike(Feed(c, line), c)
  {
  }

  /** A line that is cut off is pending. */
  lemma InterpretPart(c: Client, part: string)
    requires LineChars(part)
    ensures Interpret(c, part) == c
  {
    assert LineLength(part) == |part|;
  }

  /** The blank lines of a text: line feeds at the start of a line, where the text itself starts if `start`. */
  function Blanks(s: string, start: bool): nat {
    if s == "" then 0 else (if start && s[0] == LF then 1 else 0) + Blanks(s[1..], s[0] == LF)
  }

  /** Whether what follows a text starts a line. */
  predicate EndsLine(s: string, start: bool) {
    if s == "" then start else s[|s| - 1] == LF
  }

  lemma {:induction false} BlanksConcat(a: string, b: string, start: bool)
    ensures Blanks(a + b, start) == Blanks(a, start) + Blanks(b, EndsLine(a, start))
  {
    if a == "" {
      assert a + b == b;
    } else {
      assert (a + b)[1..] == a[1..] + b;
      BlanksConcat(a[1..], b, a[0] == LF);
    }
  }

  lemma {:induction false} BlanksNone(line: string, start: bool)
    requires LF !in line
    ensures Blanks(line, start) == 0
  {
    if line != "" {
      BlanksNone(line[1..], false);
    }
  }

  lemma {:induction false} BlanksLf(start: bool)
    ensures Blanks([LF], start) == if start then 1 else 0
  {
    assert [LF][1..] == "";
  }

  /** A line that is not empty is not blank. */
  lemma {:induction false} BlanksLine(line: string, start: bool)
    requires LF !in line && line != ""
    ensures Blanks(line + [LF], start) == 0
  {
    BlanksNone(line, start);
    BlanksConcat(line, [LF], start);
    BlanksLf(false);
  }

  lemma {:induction false} BlanksPrefix(s: string, n: nat, start: bool)
    requires n <= |s|
    ensures Blanks(s[..n], start) <= Blanks(s, start)
  {
    assert s == s[..n] + s[n..];
    BlanksConcat(s[..n], s[n..], start);
  }

  /** Only blank lines dispatch events, and set the last event ID. */
  lemma {:induction false} InterpretBlanks(c: Client, s: string)
    requires CR !in s
    ensures |Interpret(c, s).events| <= |c.events| + Blanks(s, true)
    ensures Blanks(s, true) == 0 ==> SoundsLike(Interpret(c, s), c)
    decreases |s|
  {
    var n := LineLength(s);
    if n == |s| {
      InterpretPart(c, s);
    } else {
      var line, rest := s[..n], s[n + 1..];
      assert s == line + [LF] + rest;
      InterpretLine(c, line, rest);
      InterpretBlanks(Feed(c, line), rest);
      BlanksConcat(line + [LF], rest, true);
      if line != "" {
        BlanksLine(line, true);
        FeedKeeps(c, line);
      }
    }
  }

  /** A printed item ends with its only blank line. */
  lemma {:induction false} BlanksItem(item: Item, n: nat, start: bool)
    requires Printable(item) && n <= |Print(item)|
    ensures Blanks(Print(item)[..n], start) == if n == |Print(item)| then 1 else 0
  {
    var body := Body(item);
    BlanksBody(item, start);
    if n < |Print(item)| {
      assert Print(item)[..n] == body[..n];
      BlanksPrefix(body, n, start);
    } else {
      assert Print(item)[..n] == body + [LF];
      BlanksConcat(body, [LF], start);
      BlanksLf(true);
    }
  }

  /** An item up to its blank line. */
  function Body(item: Item): (body: string)
    ensures Print(item) == body + [LF] && body != "" && body[|body| - 1] == LF
  {
    match item
    case Message(id, hasId, data) =>
      (if hasId then ("id: " + id) + [LF] else "") + (("data: " + data) + [LF])
    case Ping => ": ping" + [LF]
  }

  lemma {:induction false} BlanksBody(item: Item, start: bool)
    requires Printable(item)
    ensures Blanks(Body(item), start) == 0
  {
    match item
    case Ping => BlanksLine(": ping", start);
    case Message(id, hasId, data) =>
      var line := "data: " + data;
      if hasId {
        BlanksLine("id: " + id, start);
        BlanksConcat(("id: " + id) + [LF], line + [LF], start);
        BlanksLine(line, true);
      } else {
        assert "" + (line + [LF]) == line + [LF];
        BlanksLine(line, start);
      }
  }

  lemma PrintNoCr(item: Item)
    requires Printable(item)
    ensures CR !in Print(item)
  {
  }

  /** An item that is cut off before its last byte leaves no trace in what was heard. */
  lemma InterpretCutItem(c: Client, item: Item, n: nat)
    requires Printable(item) && n < |Print(item)|
    ensures SoundsLike(Interpret(c, Print(item)[..n]), c)
  {
    PrintNoCr(item);
    BlanksItem(item, n, true);
    InterpretBlanks(c, Print(item)[..n]);
  }

  /** How many items arrived whole in the first n bytes of their stream. */
  function Arrived(items: seq<Item>, n: nat): (k: nat)
    ensures k <= |items|
  {
    if items == [] || n < |Print(items[0])| then 0 else 1 + Arrived(items[1..], n - |Print(items[0])|)
  }

  /** A stream cut off after any number of bytes was heard as the items that arrived whole. */
  lemma {:induction false} InterpretCut(c: Client, items: seq<Item>, n: nat)
    requires c.data == "" && c.kind == "" && n <= |PrintAll(items)|
    requires forall i :: 0 <= i < |items| ==> Printable(items[i])
    ensures SoundsLike(Interpret(c, PrintAll(items)[..n]), Heard(c, items[..Arrived(items, n)]))
    decreases |items|
  {
    assert c.events + [] == c.events;
    if items == [] {
      InterpretPart(c, "");
    } else {
      var first, rest := Print(items[0]), PrintAll(items[1..]);
      if n < |first| {
        assert PrintAll(items)[..n] == first[..n];
        InterpretCutItem(c, items[0], n);
      } else {
        var m := n - |first|;
        assert PrintAll(items)[..n] == first + rest[..m];
        InterpretItem(c, items[0], rest[..m]);
        InterpretCut(Took(c, items[0]), items[1..], m);
        var whole := items[..Arrived(items, n)];
        assert whole[0] == items[0] && whole[1..] == items[1..][..Arrived(items[1..], m)];
        HeardFirst(c, whole);
      }
    }
  }

  /** The same for a client whose stream has just begun: it has no ID for it yet. */
  lemma {:induction false} NewStreamCut(c: Client, items: seq<Item>, n: nat)
    requires n <= |PrintAll(items)| && forall i :: 0 <= i < |items| ==> Printable(items[i])
    ensures var heard, whole := Interpret(Reconnected(c), PrintAll(items)[..n]), items[..Arrived(items, n)];
      && heard.events == c.events + Received(whole, "")
      && heard.lastId == if whole == [] then c.lastId else LastId(whole, "")
  {
    InterpretCut(Reconnected(c), items, n);
  }

  lemma {:induction false} PrintAllConcat(a: seq<Item>, b: seq<Item>)
    ensures PrintAll(a + b) == PrintAll(a) + PrintAll(b)
  {
    if a == [] {
      assert a + b == b;
    } else {
      assert (a + b)[1..] == a[1..] + b;
      PrintAllConcat(a[1..], b);
      Regroup(Print(a[0]), PrintAll(a[1..]), PrintAll(b));
    }
  }

  lemma {:induction false} ReceivedConcat(a: seq<Item>, b: seq<Item>, lastId: string)
    ensures Received(a + b, lastId) == Received(a, lastId) + Received(b, LastId(a, lastId))
    ensures LastId(a + b, lastId) == LastId(b, LastId(a, lastId))
  {
    if a == [] {
      assert a + b == b;
    } else {
      assert (a + b)[1..] == a[1..] + b;
      ReceivedConcat(a[1..], b, IdAfter(a[0], lastId));
    }
  }
}
