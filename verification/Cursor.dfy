/** The syntax check on journal cursors (validateCursor in journal/reader/config.go). */
module Cursor {
  import opened Prelude
  import opened Text

  function HexValue(c: char): int {
    if '0' <= c <= '9' then (c - '0') as int
    else if 'a' <= c <= 'f' then (c - 'a') as int + 10
    else if 'A' <= c <= 'F' then (c - 'A') as int + 10
    else -1
  }

  predicate AllHex(s: string) {
    forall i :: 0 <= i < |s| ==> HexValue(s[i]) >= 0
  }

  function HexNumber(s: string): nat
    requires AllHex(s)
  {
    if s == "" then 0 else 16 * HexNumber(s[..|s| - 1]) + HexValue(s[|s| - 1])
  }

  /** strconv.ParseUint(s, 16, 64) succeeds. */
  predicate ParsesAsHexUint64(s: string) {
    s != "" && AllHex(s) && HexNumber(s) < 0x1_0000_0000_0000_0000
  }

  const MAX_STRING: nat := 33

  /** The two value checks: at most 33 bytes, or a 64-bit hexadecimal number. */
  datatype Check = ShortString | HexUint64

  predicate Passes(check: Check, value: string) {
    match check
    case ShortString => |value| <= MAX_STRING
    case HexUint64 => ParsesAsHexUint64(value)
  }

  const FORMAT: seq<(string, Check)> :=
    [("s", ShortString), ("i", HexUint64), ("b", ShortString), ("m", HexUint64), ("t", HexUint64), ("x", HexUint64)]

  /** One field of a cursor: exactly one '=', the right key, a value that passes. */
  method ValidateField(field: string, key: string, check: Check) returns (ok: bool)
    ensures ok <==> FieldOk(field, key, check)
  {
    var parts := Split(field, '=');
    if |parts| != 2 {
      return false;
    }
    if parts[0] != key {
      return false;
    }
    ok := Passes(check, parts[1]);
  }

  predicate FieldOk(field: string, key: string, check: Check) {
    var parts := Split(field, '=');
    |parts| == 2 && parts[0] == key && Passes(check, parts[1])
  }

  predicate Valid(c: string) {
    var fields := Split(c, ';');
    |fields| == |FORMAT| && forall i :: 0 <= i < |FORMAT| ==> FieldOk(fields[i], FORMAT[i].0, FORMAT[i].1)
  }

  /** What the check is for, without splitting: the values of the six fields. */
  ghost predicate Acceptable(values: seq<string>) {
    |values| == |FORMAT|
    && forall i :: 0 <= i < |values| ==>
      ';' !in values[i] && '=' !in values[i] && Passes(FORMAT[i].1, values[i])
  }

  function FieldText(key: string, value: string): string {
    key + "=" + value
  }

  function FieldTexts(values: seq<string>): (texts: seq<string>)
    requires |values| == |FORMAT|
    ensures |texts| == |FORMAT|
    ensures forall i :: 0 <= i < |texts| ==> texts[i] == FieldText(FORMAT[i].0, values[i])
  {
    seq(|FORMAT|, i requires 0 <= i < |FORMAT| => FieldText(FORMAT[i].0, values[i]))
  }

  /** A cursor printed from its values. */
  function Print(values: seq<string>): string
    requires |values| == |FORMAT|
  {
    Join(FieldTexts(values), ';')
  }

  /** The values of a valid cursor. */
  function Values(c: string): (values: seq<string>)
    requires Valid(c)
    ensures |values| == |FORMAT|
  {
    seq(|FORMAT|, i requires 0 <= i < |FORMAT| => Split(Split(c, ';')[i], '=')[1])
  }

  lemma KeysPlain()
    ensures forall i :: 0 <= i < |FORMAT| ==> '=' !in FORMAT[i].0 && ';' !in FORMAT[i].0
  {
  }

  lemma SplitField(key: string, value: string)
    requires '=' !in key && '=' !in value
    ensures Split(FieldText(key, value), '=') == [key, value]
  {
    SplitConcat(key, value, '=');
    SplitNone(key, '=');
    SplitNone(value, '=');
  }

  /** A printed cursor is accepted, and its values are read back. */
  lemma PrintedIsValid(values: seq<string>)
    requires Acceptable(values)
    ensures Valid(Print(values)) && Values(Print(values)) == values
  {
    KeysPlain();
    var texts := FieldTexts(values);
    forall i | 0 <= i < |FORMAT|
      ensures ';' !in texts[i] && Split(texts[i], '=') == [FORMAT[i].0, values[i]]
    {
      SplitField(FORMAT[i].0, values[i]);
    }
    SplitJoin(texts, ';');
  }

  /** An accepted cursor is its values printed, and the values are fit to print. */
  lemma ValidIsPrinted(c: string)
    requires Valid(c)
    ensures Acceptable(Values(c)) && Print(Values(c)) == c
  {
    var fields, values := Split(c, ';'), Values(c);
    JoinSplit(c, ';');
    forall i | 0 <= i < |FORMAT|
      ensures ';' !in values[i] && '=' !in values[i] && fields[i] == FieldText(FORMAT[i].0, values[i])
    {
      assert FieldOk(fields[i], FORMAT[i].0, FORMAT[i].1);
      FieldIsText(fields[i]);
    }
    assert fields == FieldTexts(values);
  }

  lemma {:induction false} FieldIsText(field: string)
    requires |Split(field, '=')| == 2
    ensures var parts := Split(field, '=');
      field == FieldText(parts[0], parts[1]) && '=' !in parts[1]
      && forall c :: c in parts[1] ==> c in field
  {
    JoinSplit(field, '=');
    var parts := Split(field, '=');
    assert Join(parts[1..], '=') == parts[1];
  }

  /** Soundness, completeness and uniqueness at once: a cursor is accepted if and only if it is printed
      from acceptable values, and then from those values only. */
  lemma ValidIff(c: string)
    ensures Valid(c) <==> exists values :: Acceptable(values) && Print(values) == c
    ensures forall a, b :: Acceptable(a) && Acceptable(b) && Print(a) == c && Print(b) == c ==> a == b
  {
    if Valid(c) {
      ValidIsPrinted(c);
    }
    forall values | Acceptable(values) && Print(values) == c ensures Valid(c) && Values(c) == values {
      PrintedIsValid(values);
    }
  }

  predicate HexDigit(c: char) {
    '0' <= c <= '9' || 'a' <= c <= 'f' || 'A' <= c <= 'F'
  }

  /** A text without its leading zeros. */
  function Significant(s: string): string {
    if s != "" && s[0] == '0' then Significant(s[1..]) else s
  }

  /** Hexadecimal digits, at least one, that make a number below 2^64: no more than 16 after leading zeros. */
  predicate Hex64(s: string) {
    s != "" && (forall i :: 0 <= i < |s| ==> HexDigit(s[i])) && |Significant(s)| <= 16
  }

  /** A value without the characters that separate fields. */
  predicate Field(s: string) {
    ';' !in s && '=' !in s
  }

  /** How a cursor is written: two strings of at most 33 bytes and four hexadecimal numbers, in this order. */
  ghost predicate WrittenFrom(c: string, s: string, i: string, b: string, m: string, t: string, x: string) {
    && c == "s=" + s + ";i=" + i + ";b=" + b + ";m=" + m + ";t=" + t + ";x=" + x
    && Field(s) && Field(b) && |s| <= 33 && |b| <= 33
    && Hex64(i) && Hex64(m) && Hex64(t) && Hex64(x)
  }

  ghost predicate Written(c: string) {
    exists s, i, b, m, t, x :: WrittenFrom(c, s, i, b, m, t, x)
  }

  function Pow16(n: nat): nat {
    if n == 0 then 1 else 16 * Pow16(n - 1)
  }

  lemma {:induction false} HexBelow(s: string)
    requires AllHex(s)
    ensures HexNumber(s) < Pow16(|s|)
  {
    if s != "" {
      HexBelow(s[..|s| - 1]);
      assert HexValue(s[|s| - 1]) <= 15;
    }
  }

  lemma {:induction false} HexAbove(s: string)
    requires AllHex(s) && s != "" && s[0] != '0'
    ensures HexNumber(s) >= Pow16(|s| - 1)
  {
    if |s| > 1 {
      HexAbove(s[..|s| - 1]);
    } else {
      assert s[..0] == "" && HexNumber("") == 0;
    }
  }

  lemma {:induction false} HexZero(s: string)
    requires AllHex(s) && s != "" && s[0] == '0'
    ensures HexNumber(s) == HexNumber(s[1..])
  {
    if |s| > 1 {
      HexZero(s[..|s| - 1]);
      assert s[..|s| - 1][1..] == s[1..][..|s| - 2];
    } else {
      assert s[..0] == "" && s[1..] == "";
    }
  }

  lemma {:induction false} Pow16Grows(m: nat, n: nat)
    requires m <= n
    ensures Pow16(m) <= Pow16(n)
  {
    if m < n {
      Pow16Grows(m, n - 1);
    }
  }

  lemma Pow16Of16()
    ensures Pow16(16) == 0x1_0000_0000_0000_0000
  {
    assert Pow16(4) == 0x1_0000;
    assert Pow16(8) == 0x1_0000_0000;
    assert Pow16(12) == 0x1_0000_0000_0000;
  }

  lemma {:induction false} HexFits(s: string)
    requires AllHex(s)
    ensures HexNumber(s) < 0x1_0000_0000_0000_0000 <==> |Significant(s)| <= 16
  {
    if s != "" && s[0] == '0' {
      HexZero(s);
      HexFits(s[1..]);
    } else if |s| <= 16 {
      HexBelow(s);
      Pow16Grows(|s|, 16);
      Pow16Of16();
    } else {
      HexAbove(s);
      Pow16Grows(16, |s| - 1);
      Pow16Of16();
    }
  }

  lemma ParsesIff(s: string)
    ensures ParsesAsHexUint64(s) <==> Hex64(s)
    ensures Hex64(s) ==> Field(s)
  {
    assert forall i :: 0 <= i < |s| ==> (HexValue(s[i]) >= 0 <==> HexDigit(s[i]));
    if AllHex(s) {
      HexFits(s);
    }
  }

  lemma TextsSix(s: string, i: string, b: string, m: string, t: string, x: string)
    ensures FieldTexts([s, i, b, m, t, x]) == ["s=" + s, "i=" + i, "b=" + b, "m=" + m, "t=" + t, "x=" + x]
  {
    var values := [s, i, b, m, t, x];
    var texts := FieldTexts(values);
    assert "s" + "=" == "s=" && "i" + "=" == "i=" && "b" + "=" == "b=";
    assert "m" + "=" == "m=" && "t" + "=" == "t=" && "x" + "=" == "x=";
    assert texts[0] == FieldText("s", values[0]) && texts[1] == FieldText("i", values[1]);
    assert texts[2] == FieldText("b", values[2]) && texts[3] == FieldText("m", values[3]);
    assert texts[4] == FieldText("t", values[4]) && texts[5] == FieldText("x", values[5]);
  }

  lemma PrintSix(s: string, i: string, b: string, m: string, t: string, x: string)
    ensures Print([s, i, b, m, t, x]) == "s=" + s + ";i=" + i + ";b=" + b + ";m=" + m + ";t=" + t + ";x=" + x
  {
    TextsSix(s, i, b, m, t, x);
    JoinSix("s=" + s, "i=" + i, "b=" + b, "m=" + m, "t=" + t, "x=" + x);
    KeysJoined(i, b, m, t, x);
    SixApart("s=" + s, ";i=" + i, ";b=" + b, ";m=" + m, ";t=" + t, ";x=" + x);
    SixTogether(s, i, b, m, t, x);
  }

  lemma KeysJoined(i: string, b: string, m: string, t: string, x: string)
    ensures ";" + ("i=" + i) == ";i=" + i && ";" + ("b=" + b) == ";b=" + b && ";" + ("m=" + m) == ";m=" + m
    ensures ";" + ("t=" + t) == ";t=" + t && ";" + ("x=" + x) == ";x=" + x
  {
  }

  lemma SixApart(s: string, i: string, b: string, m: string, t: string, x: string)
    ensures s + (i + (b + (m + (t + x)))) == s + i + b + m + t + x
  {
  }

  lemma SixTogether(s: string, i: string, b: string, m: string, t: string, x: string)
    ensures "s=" + s + (";i=" + i) + (";b=" + b) + (";m=" + m) + (";t=" + t) + (";x=" + x)
         == "s=" + s + ";i=" + i + ";b=" + b + ";m=" + m + ";t=" + t + ";x=" + x
  {
    AddBoth("s=" + s, ";i=", i);
    AddBoth("s=" + s + ";i=" + i, ";b=", b);
    AddBoth("s=" + s + ";i=" + i + ";b=" + b, ";m=", m);
    AddBoth("s=" + s + ";i=" + i + ";b=" + b + ";m=" + m, ";t=", t);
    AddBoth("s=" + s + ";i=" + i + ";b=" + b + ";m=" + m + ";t=" + t, ";x=", x);
  }

  lemma AddBoth(done: string, key: string, value: string)
    ensures done + (key + value) == done + key + value
  {
  }

  lemma JoinSix(s: string, i: string, b: string, m: string, t: string, x: string)
    ensures Join([s, i, b, m, t, x], ';')
         == s + ((";" + i) + ((";" + b) + ((";" + m) + ((";" + t) + (";" + x)))))
  {
    Regroup(";", m, (";" + t) + (";" + x));
    Regroup(";", b, (";" + m) + ((";" + t) + (";" + x)));
    Regroup(";", i, (";" + b) + ((";" + m) + ((";" + t) + (";" + x))));
    JoinThree(m, t, x);
    var three := [m, t, x];
    JoinMore(b, three);
    JoinMore(i, [b] + three);
    JoinMore(s, [i] + ([b] + three));
    assert [s] + ([i] + ([b] + three)) == [s, i, b, m, t, x];
  }

  lemma JoinThree(m: string, t: string, x: string)
    ensures Join([m, t, x], ';') == m + ((";" + t) + (";" + x))
  {
    JoinTwo(t, x);
    JoinMore(m, [t, x]);
    Regroup(";", t, ";" + x);
    assert [m] + [t, x] == [m, t, x];
  }

  lemma JoinTwo(a: string, b: string)
    ensures Join([a, b], ';') == a + (";" + b)
  {
    assert [a, b][1..] == [b];
  }

  lemma {:induction false} JoinMore(a: string, rest: seq<string>)
    requires |rest| >= 1
    ensures Join([a] + rest, ';') == a + (";" + Join(rest, ';'))
  {
    var all := [a] + rest;
    assert all[0] == a && all[1..] == rest && |all| > 1;
    Regroup(a, ";", Join(rest, ';'));
  }

  lemma AcceptableSix(s: string, i: string, b: string, m: string, t: string, x: string)
    ensures Acceptable([s, i, b, m, t, x])
      <==> Field(s) && Field(b) && |s| <= 33 && |b| <= 33 && Hex64(i) && Hex64(m) && Hex64(t) && Hex64(x)
  {
    ParsesIff(i);
    ParsesIff(m);
    ParsesIff(t);
    ParsesIff(x);
    var values := [s, i, b, m, t, x];
    assert values[0] == s && values[1] == i && values[2] == b && values[3] == m && values[4] == t && values[5] == x;
  }

  /** Which cursors are accepted, byte for byte. */
  lemma WrittenIff(c: string)
    ensures Valid(c) <==> Written(c)
  {
    ValidIff(c);
    if Valid(c) {
      var values :| Acceptable(values) && Print(values) == c;
      var s, i, b, m, t, x := values[0], values[1], values[2], values[3], values[4], values[5];
      assert values == [s, i, b, m, t, x];
      PrintSix(s, i, b, m, t, x);
      AcceptableSix(s, i, b, m, t, x);
      assert WrittenFrom(c, s, i, b, m, t, x);
    }
    if s, i, b, m, t, x :| WrittenFrom(c, s, i, b, m, t, x) {
      PrintSix(s, i, b, m, t, x);
      AcceptableSix(s, i, b, m, t, x);
    }
  }

  /** validateCursor. */
  method ValidateCursor(c: string) returns (ok: bool)
    ensures ok <==> Valid(c)
    ensures ok <==> Written(c)
  {
    WrittenIff(c);
    var fields := Split(c, ';');
    if |fields| != |FORMAT| {
      return false;
    }
    for i := 0 to |FORMAT|
      invariant forall j :: 0 <= j < i ==> FieldOk(fields[j], FORMAT[j].0, FORMAT[j].1)
    {
      var good := ValidateField(fields[i], FORMAT[i].0, FORMAT[i].1);
      if !good {
        return false;
      }
    }
    ok := true;
  }
}
