/** What a client hears of lines sent as events, when an event can be cut off by the buffer it is read into and the
    stream by the end of the connection (mesos/files/reader/format.go and read.go). */
module Sending {
  import opened Prelude
  import opened Lines
  import opened Decimal
  import opened FilesHandler
  import Sse

  type Marshal = string -> Option<string>

  /** json.Marshal of a message succeeds and escapes line ends. */
  ghost predicate OneLineJson(marshal: Marshal) {
    forall m :: marshal(m).Some? && Sse.LineChars(marshal(m).value)
  }

  /** What a line is sent as. */
  function ItemOf(marshal: Marshal, l: Line): Sse.Item {
    var hasId := l.offset > 0 && l.size > 0;
    Sse.Message(if hasId then Show(l.offset + l.size) else "", hasId, Payload(marshal, l.message))
  }

  function Items(marshal: Marshal, ls: seq<Line>): (items: seq<Sse.Item>)
    ensures |items| == |ls|
  {
    if ls == [] then [] else [ItemOf(marshal, ls[0])] + Items(marshal, ls[1..])
  }

  /** SSEFormat of a reader. */
  function AsEvent(marshal: Marshal): Line -> string {
    (l: Line) => SSEFormat(marshal, l)
  }

  /** An event is the printed item. */
  lemma EventPrints(marshal: Marshal, l: Line)
    requires OneLineJson(marshal)
    ensures Sse.Printable(ItemOf(marshal, l)) && AsEvent(marshal)(l) == Sse.Print(ItemOf(marshal, l))
  {
  }

  lemma {:induction false} SentPrints(marshal: Marshal, ls: seq<Line>)
    requires OneLineJson(marshal)
    ensures Formatted(AsEvent(marshal), ls) == Sse.PrintAll(Items(marshal, ls))
    ensures forall i :: 0 <= i < |ls| ==> Sse.Printable(Items(marshal, ls)[i])
  {
    if ls != [] {
      SentPrints(marshal, ls[1..]);
      EventPrints(marshal, ls[0]);
      assert Items(marshal, ls)[1..] == Items(marshal, ls[1..]);
    }
  }

  /** The event a client is meant to dispatch for a line: the marshalled message, or the plain one when it cannot be
      marshalled, with the line's end for its ID, unless the line lies at offset 0. */
  function EventOf(marshal: Marshal, l: Line): Sse.Event {
    var data := if marshal(l.message).Some? then marshal(l.message).value else l.message;
    Sse.Event("", data, if l.offset > 0 then Show(l.offset + l.size) else "")
  }

  function Heard(marshal: Marshal, ls: seq<Line>): (events: seq<Sse.Event>)
    ensures |events| == |ls|
  {
    if ls == [] then [] else [EventOf(marshal, ls[0])] + Heard(marshal, ls[1..])
  }

  lemma {:induction false} HeardConcat(marshal: Marshal, a: seq<Line>, b: seq<Line>)
    ensures Heard(marshal, a + b) == Heard(marshal, a) + Heard(marshal, b)
  {
    if a == [] {
      assert a + b == b;
    } else {
      assert (a + b)[1..] == a[1..] + b;
      HeardConcat(marshal, a[1..], b);
      Regroup([EventOf(marshal, a[0])], Heard(marshal, a[1..]), Heard(marshal, b));
    }
  }

  /** What the data of some events decodes to. */
  function Decoded(decode: string -> string, events: seq<Sse.Event>): seq<string> {
    seq(|events|, i requires 0 <= i < |events| => decode(events[i].data))
  }

  function Messages(ls: seq<Line>): seq<string> {
    seq(|ls|, i requires 0 <= i < |ls| => ls[i].message)
  }

  /** `decode` undoes json.Marshal. */
  ghost predicate Inverts(decode: string -> string, marshal: Marshal) {
    forall m :: marshal(m).Some? ==> decode(marshal(m).value) == m
  }

  /** Round trip: events heard as they are meant to be decode to the messages of their lines, in order. */
  lemma {:induction false} HeardDecodes(marshal: Marshal, decode: string -> string, ls: seq<Line>)
    requires OneLineJson(marshal) && Inverts(decode, marshal)
    ensures Decoded(decode, Heard(marshal, ls)) == Messages(ls)
  {
    if ls != [] {
      HeardDecodes(marshal, decode, ls[1..]);
      assert decode(EventOf(marshal, ls[0]).data) == ls[0].message;
      var heard, rest := Heard(marshal, ls), Heard(marshal, ls[1..]);
      assert heard == [heard[0]] + rest;
      assert Decoded(decode, heard) == [decode(heard[0].data)] + Decoded(decode, rest);
      assert Messages(ls) == [ls[0].message] + Messages(ls[1..]);
    }
  }

  /** Where the last of some lines ends. */
  function EndOf(ls: seq<Line>): int
    requires ls != []
  {
    ls[|ls| - 1].offset + ls[|ls| - 1].size
  }

  /** Lines that are all sent with an ID. */
  ghost predicate Named(ls: seq<Line>) {
    forall i :: 0 <= i < |ls| ==> ls[i].offset > 0 && ls[i].size > 0
  }

  lemma {:induction false} HeardReceived(marshal: Marshal, ls: seq<Line>, lastId: string)
    requires Named(ls)
    ensures Sse.Received(Items(marshal, ls), lastId) == Heard(marshal, ls)
    ensures Sse.LastId(Items(marshal, ls), lastId) == if ls == [] then lastId else Show(EndOf(ls))
  {
    if ls != [] {
      HeardReceived(marshal, ls[1..], Show(ls[0].offset + ls[0].size));
      assert Items(marshal, ls)[1..] == Items(marshal, ls[1..]);
    }
  }

  /** The bytes sent for some lines: of each event as much as its buffer held. */
  function Sent(marshal: Marshal, parts: seq<Part>): string {
    Output(AsEvent(marshal), parts)
  }

  /** An event that its buffer holds. */
  predicate Roomy(marshal: Marshal, part: Part) {
    |AsEvent(marshal)(part.line)| <= part.room
  }

  /** The lines up to the last one whose event was sent whole and arrived whole in the first n bytes. */
  function Landed(marshal: Marshal, parts: seq<Part>, n: nat): (k: nat)
    ensures k <= |parts|
  {
    if parts == [] then 0
    else
      var first := |Fitting(AsEvent(marshal), parts[0])|;
      if n < first then 0
      else
        var more := Landed(marshal, parts[1..], n - first);
        if more > 0 then more + 1 else if Roomy(marshal, parts[0]) then 1 else 0
  }

  /** Every event sent after another starts where that one was cut, on a new line or in the middle of one. */
  lemma SentFirst(marshal: Marshal, parts: seq<Part>, n: nat)
    requires parts != [] && n <= |Sent(marshal, parts)|
    ensures var first := Fitting(AsEvent(marshal), parts[0]);
      && Sent(marshal, parts) == first + Sent(marshal, parts[1..])
      && Sent(marshal, parts)[..n]
         == if n < |first| then first[..n] else first + Sent(marshal, parts[1..])[..n - |first|]
  {
  }

  lemma FittingCut(marshal: Marshal, part: Part)
    requires OneLineJson(marshal)
    ensures var whole, cut := Sse.Print(ItemOf(marshal, part.line)), Fitting(AsEvent(marshal), part);
      |cut| <= |whole| && cut == whole[..|cut|] && (Roomy(marshal, part) <==> |cut| == |whole|)
  {
    EventPrints(marshal, part.line);
  }

  /** A blank line ends every event that was sent and arrived whole, and there are no others. */
  lemma {:induction false} SentBlanks(marshal: Marshal, parts: seq<Part>, n: nat, start: bool)
    requires OneLineJson(marshal) && n <= |Sent(marshal, parts)|
    ensures Sse.CR !in Sent(marshal, parts)[..n]
    ensures Sse.Blanks(Sent(marshal, parts)[..n], start) <= Landed(marshal, parts, n)
    ensures !Fits(AsEvent(marshal), parts[..Landed(marshal, parts, n)]) ==>
      Sse.Blanks(Sent(marshal, parts)[..n], start) < Landed(marshal, parts, n)
    decreases |parts|
  {
    if parts != [] {
      var first := Fitting(AsEvent(marshal), parts[0]);
      SentFirst(marshal, parts, n);
      if n < |first| {
        BlanksCut(marshal, parts[0], n, start);
      } else {
        BlanksCut(marshal, parts[0], |first|, start);
        assert first[..|first|] == first;
        Sse.BlanksConcat(first, Sent(marshal, parts[1..])[..n - |first|], start);
        SentBlanks(marshal, parts[1..], n - |first|, Sse.EndsLine(first, start));
        if Landed(marshal, parts, n) > 0 {
          LandedFits(marshal, parts, n);
        }
      }
    }
  }

  lemma {:induction false} BlanksCut(marshal: Marshal, part: Part, n: nat, start: bool)
    requires OneLineJson(marshal) && n <= |Fitting(AsEvent(marshal), part)|
    ensures var first := Fitting(AsEvent(marshal), part);
      && Sse.CR !in first[..n]
      && Sse.Blanks(first[..n], start) == if n == |first| && Roomy(marshal, part) then 1 else 0
  {
    var first, item := Fitting(AsEvent(marshal), part), ItemOf(marshal, part.line);
    FittingCut(marshal, part);
    EventPrints(marshal, part.line);
    Sse.PrintNoCr(item);
    Sse.BlanksItem(item, n, start);
    assert first[..n] == Sse.Print(item)[..n];
  }

  lemma LandedFits(marshal: Marshal, parts: seq<Part>, n: nat)
    requires parts != [] && Landed(marshal, parts, n) > 0
    ensures n >= |Fitting(AsEvent(marshal), parts[0])|
    ensures var k, more := Landed(marshal, parts, n),
                           Landed(marshal, parts[1..], n - |Fitting(AsEvent(marshal), parts[0])|);
      && k == more + 1
      && (Fits(AsEvent(marshal), parts[..k])
          <==> Roomy(marshal, parts[0]) && Fits(AsEvent(marshal), parts[1..][..more]))
  {
    var k := Landed(marshal, parts, n);
    assert parts[..k][1..] == parts[1..][..k - 1];
    FitsFirst(AsEvent(marshal), parts[..k]);
  }

  /** As many events as that are heard at most, and fewer if one of these lines was cut off by its buffer. */
  lemma {:induction false} HearsAtMost(marshal: Marshal, c: Sse.Client, parts: seq<Part>, n: nat)
    requires OneLineJson(marshal) && n <= |Sent(marshal, parts)|
    ensures var heard, k := Sse.Interpret(c, Sent(marshal, parts)[..n]), Landed(marshal, parts, n);
      && |heard.events| <= |c.events| + k
      && (!Fits(AsEvent(marshal), parts[..k]) ==> |heard.events| < |c.events| + k)
  {
    SentBlanks(marshal, parts, n, true);
    Sse.InterpretBlanks(c, Sent(marshal, parts)[..n]);
  }

  /** If none of them was, exactly these are heard. */
  lemma {:induction false} HearsLanded(marshal: Marshal, c: Sse.Client, parts: seq<Part>, n: nat)
    requires OneLineJson(marshal) && n <= |Sent(marshal, parts)| && c.data == "" && c.kind == ""
    requires Fits(AsEvent(marshal), parts[..Landed(marshal, parts, n)])
    ensures Sse.SoundsLike(Sse.Interpret(c, Sent(marshal, parts)[..n]),
                           Sse.Heard(c, Items(marshal, LinesOf(parts[..Landed(marshal, parts, n)]))))
    decreases |parts|
  {
    var k := Landed(marshal, parts, n);
    if k == 0 {
      NothingLanded(marshal, c, parts, n);
    } else {
      LandedFits(marshal, parts, n);
      var d, m := Sse.Took(c, ItemOf(marshal, parts[0].line)), n - |Fitting(AsEvent(marshal), parts[0])|;
      SentWhole(marshal, parts, n, m);
      HearsLanded(marshal, d, parts[1..], m);
      TakesFirst(marshal, c, parts, n, m, k);
    }
  }

  lemma {:induction false} NothingLanded(marshal: Marshal, c: Sse.Client, parts: seq<Part>, n: nat)
    requires OneLineJson(marshal) && n <= |Sent(marshal, parts)| && Landed(marshal, parts, n) == 0
    ensures Sse.SoundsLike(Sse.Interpret(c, Sent(marshal, parts)[..n]),
                           Sse.Heard(c, Items(marshal, LinesOf(parts[..0]))))
  {
    SentBlanks(marshal, parts, n, true);
    Sse.InterpretBlanks(c, Sent(marshal, parts)[..n]);
    assert parts[..0] == [] && c.events + [] == c.events;
  }

  lemma TakesFirst(marshal: Marshal, c: Sse.Client, parts: seq<Part>, n: nat, m: nat, k: nat)
    requires OneLineJson(marshal) && 0 < k <= |parts| && Roomy(marshal, parts[0]) && c.data == "" && c.kind == ""
    requires n == |Fitting(AsEvent(marshal), parts[0])| + m <= |Sent(marshal, parts)|
    requires m <= |Sent(marshal, parts[1..])|
    requires var d := Sse.Took(c, ItemOf(marshal, parts[0].line));
      Sse.SoundsLike(Sse.Interpret(d, Sent(marshal, parts[1..])[..m]),
                     Sse.Heard(d, Items(marshal, LinesOf(parts[1..][..k - 1]))))
    ensures Sse.SoundsLike(Sse.Interpret(c, Sent(marshal, parts)[..n]),
                           Sse.Heard(c, Items(marshal, LinesOf(parts[..k]))))
  {
    SentWhole(marshal, parts, n, m);
    Sse.InterpretItem(c, ItemOf(marshal, parts[0].line), Sent(marshal, parts[1..])[..m]);
    FirstHeard(marshal, c, parts, parts[1..], k);
  }

  lemma SentWhole(marshal: Marshal, parts: seq<Part>, n: nat, m: nat)
    requires OneLineJson(marshal) && parts != [] && Roomy(marshal, parts[0]) && n <= |Sent(marshal, parts)|
    requires n == |Fitting(AsEvent(marshal), parts[0])| + m
    ensures m <= |Sent(marshal, parts[1..])|
    ensures var item := ItemOf(marshal, parts[0].line);
      && Sse.Printable(item)
      && Sent(marshal, parts)[..n] == Sse.Print(item) + Sent(marshal, parts[1..])[..m]
  {
    SentFirst(marshal, parts, n);
    RoomyWhole(marshal, parts[0]);
  }

  lemma RoomyWhole(marshal: Marshal, part: Part)
    requires OneLineJson(marshal) && Roomy(marshal, part)
    ensures Fitting(AsEvent(marshal), part) == Sse.Print(ItemOf(marshal, part.line))
    ensures Sse.Printable(ItemOf(marshal, part.line))
  {
    EventPrints(marshal, part.line);
  }

  lemma FirstHeard(marshal: Marshal, c: Sse.Client, parts: seq<Part>, rest: seq<Part>, k: nat)
    requires 0 < k <= |parts| && rest == parts[1..] && c.data == "" && c.kind == ""
    ensures Sse.Heard(c, Items(marshal, LinesOf(parts[..k])))
         == Sse.Heard(Sse.Took(c, ItemOf(marshal, parts[0].line)), Items(marshal, LinesOf(rest[..k - 1])))
  {
    var whole := parts[..k];
    assert whole[1..] == rest[..k - 1];
    assert LinesOf(whole)[1..] == LinesOf(rest[..k - 1]);
    var items := Items(marshal, LinesOf(whole));
    assert items[1..] == Items(marshal, LinesOf(rest[..k - 1]));
    Sse.HeardFirst(c, items);
  }

  lemma {:induction false} LinesOfTake(parts: seq<Part>, k: nat)
    requires k <= |parts|
    ensures |LinesOf(parts)| == |parts| && LinesOf(parts)[..k] == LinesOf(parts[..k])
  {
    if parts != [] {
      LinesOfTake(parts[1..], if k > 0 then k - 1 else 0);
      if k > 0 {
        assert parts[..k][1..] == parts[1..][..k - 1];
      }
    }
  }

  /** Everything arrives when all of it was sent. */
  lemma {:induction false} AllLand(marshal: Marshal, parts: seq<Part>)
    requires Fits(AsEvent(marshal), parts)
    ensures Landed(marshal, parts, |Sent(marshal, parts)|) == |parts|
  {
    if parts != [] {
      FitsFirst(AsEvent(marshal), parts);
      AllLand(marshal, parts[1..]);
    }
  }

  /** What a client makes of the first n bytes of a new stream. */
  function Listen(marshal: Marshal, client: Sse.Client, parts: seq<Part>, n: nat): Sse.Client
    requires n <= |Sent(marshal, parts)|
  {
    Sse.Interpret(Sse.Reconnected(client), Sent(marshal, parts)[..n])
  }

  lemma {:induction false} ListenHears(marshal: Marshal, client: Sse.Client, parts: seq<Part>, n: nat)
    requires OneLineJson(marshal) && n <= |Sent(marshal, parts)|
    requires Fits(AsEvent(marshal), parts[..Landed(marshal, parts, n)])
    ensures var heard, ls := Listen(marshal, client, parts, n), LinesOf(parts[..Landed(marshal, parts, n)]);
      && heard.events == client.events + Sse.Received(Items(marshal, ls), "")
      && heard.lastId == if ls == [] then client.lastId else Sse.LastId(Items(marshal, ls), "")
  {
    HearsLanded(marshal, Sse.Reconnected(client), parts, n);
  }
}
