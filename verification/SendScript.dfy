/** The send script of Applications/TCPApp/TCPSessionApp.cc: its parser and the loop that
    carries it out. `strtod` is a parameter that returns the value it read and how many
    characters it used. */
module SendScript {

  datatype Command = Command(tSend: real, numBytes: nat)

  /** The three exceptions of the parser. */
  datatype ParseResult = Commands(commands: seq<Command>) | TimeExpected | BytesExpected | SeparatorMissing

  predicate IsSpace(c: char) {
    c == ' ' || '\t' <= c <= '\r'
  }

  predicate IsDigit(c: char) {
    '0' <= c <= '9'
  }

  function Spaces(s: string): (k: nat)
    ensures k <= |s|
    ensures forall i :: 0 <= i < k ==> IsSpace(s[i])
    ensures k < |s| ==> !IsSpace(s[k])
  {
    if s == [] || !IsSpace(s[0]) then 0 else 1 + Spaces(s[1..])
  }

  function Digits(s: string): (k: nat)
    ensures k <= |s|
    ensures forall i :: 0 <= i < k ==> IsDigit(s[i])
    ensures k < |s| ==> !IsDigit(s[k])
  {
    if s == [] || !IsDigit(s[0]) then 0 else 1 + Digits(s[1..])
  }

  /** `atoi` of a string of digits. */
  function Number(s: string): nat
    requires forall i :: 0 <= i < |s| ==> IsDigit(s[i])
  {
    if s == [] then 0
    else
      var c := s[|s| - 1];
      assert IsDigit(c);
      10 * Number(s[..|s| - 1]) + (c as int - '0' as int)
  }

  type Scanner = string -> (real, nat)

  /** A scanner does not read past the end. */
  ghost predicate Bounded(strtod: Scanner) {
    forall s: string :: strtod(s).1 <= |s|
  }

  function Skip(s: string): string {
    s[Spaces(s)..]
  }

  /** Reading one command: the end of the script, an error, or the command and the rest. */
  datatype Read = End | Failed(error: ParseResult) | Got(command: Command, rest: string)

  /** The number of bytes, and the rest after the white space behind it. */
  ghost function ReadBytes(time: real, s: string): Read {
    var atBytes := Skip(s);
    var digits := Digits(atBytes);
    if digits == 0 then Failed(BytesExpected)
    else Got(Command(time, Number(atBytes[..digits])), Skip(atBytes[digits..]))
  }

  /** The time, unless the script ends here, and then the number of bytes. */
  ghost function ReadTime(strtod: Scanner, s: string): Read
    requires Bounded(strtod)
  {
    if s == [] || s[0] == ';' then End
    else
      var (time, used) := strtod(s);
      if used == 0 then Failed(TimeExpected) else ReadBytes(time, s[used..])
  }

  ghost function ReadCommand(strtod: Scanner, s: string): (r: Read)
    requires Bounded(strtod)
    ensures r.Got? ==> |r.rest| < |s|
  {
    ReadTime(strtod, Skip(s))
  }

  function Prepend(done: seq<Command>, r: ParseResult): ParseResult {
    if r.Commands? then Commands(done + r.commands) else r
  }

  /** What the parser makes of the rest `s` of a script. */
  ghost function Parse(strtod: Scanner, s: string): ParseResult
    requires Bounded(strtod)
    decreases |s|
  {
    match ReadCommand(strtod, s)
    case End => Commands([])
    case Failed(error) => error
    case Got(c, rest) =>
      if rest == [] then Commands([c])
      else if rest[0] != ';' then SeparatorMissing
      else Prepend([c], Parse(strtod, Skip(rest[1..])))
  }

  // ----- The parser, with the rest of the script as its advancing pointer -----

  method SkipSpaces(from: string) returns (s: string)
    ensures s == Skip(from) && |s| <= |from|
  {
    s := from;
    while s != [] && IsSpace(s[0])
      invariant |s| <= |from| && Skip(s) == Skip(from)
      decreases |s|
    {
      s := s[1..];
    }
    assert Spaces(s) == 0;
  }

  method SkipDigits(from: string) returns (digits: string, s: string)
    ensures digits == from[..Digits(from)] && s == from[Digits(from)..]
  {
    s := from;
    ghost var k := 0;
    while s != [] && IsDigit(s[0])
      invariant k <= |from| && s == from[k..]
      invariant Digits(from) == k + Digits(s)
      decreases |s|
    {
      s, k := s[1..], k + 1;
    }
    digits := from[..|from| - |s|];
  }

  method ReadBytesAt(from: string, time: real) returns (r: Read)
    ensures r == ReadBytes(time, from)
  {
    var s := SkipSpaces(from);
    if s == [] || !IsDigit(s[0]) {
      return Failed(BytesExpected);
    }
    var digits, rest := SkipDigits(s);
    var numBytes := Number(digits);
    s := SkipSpaces(rest);
    r := Got(Command(time, numBytes), s);
  }

  method ReadCommandAt(strtod: Scanner, from: string) returns (r: Read)
    requires Bounded(strtod)
    ensures r == ReadCommand(strtod, from)
  {
    var s := SkipSpaces(from);
    if s == [] || s[0] == ';' {
      return End;
    }
    var (time, used) := strtod(s);
    if used == 0 {
      return Failed(TimeExpected);
    }
    r := ReadBytesAt(s[used..], time);
  }

  /** The remaining length decreases with every command. */
  method ParseScript(strtod: Scanner, script: string) returns (r: ParseResult)
    requires Bounded(strtod)
    ensures r == Parse(strtod, script)
  {
    var commands: seq<Command> := [];
    var s := script;
    PrependNothing(Parse(strtod, script));
    while s != []
      invariant Prepend(commands, Parse(strtod, s)) == Parse(strtod, script)
      decreases |s|
    {
      var read := ReadCommandAt(strtod, s);
      ParseUnfolds(strtod, s, read);
      if read.End? {
        return Commands(commands);
      }
      if read.Failed? {
        return read.error;
      }
      if read.rest == [] {
        return Commands(commands + [read.command]);
      }
      if read.rest[0] != ';' {
        return SeparatorMissing;
      }
      s := SkipSpaces(read.rest[1..]);
      PrependTwice(commands, read.command, Parse(strtod, s));
      commands := commands + [read.command];
    }
    r := Commands(commands);
  }

  lemma ParseUnfolds(strtod: Scanner, s: string, read: Read)
    requires Bounded(strtod) && read == ReadCommand(strtod, s)
    ensures read.End? ==> Parse(strtod, s) == Commands([])
    ensures read.Failed? ==> Parse(strtod, s) == read.error && !read.error.Commands?
    ensures read.Got? && read.rest == [] ==> Parse(strtod, s) == Commands([read.command])
    ensures read.Got? && read.rest != [] && read.rest[0] != ';' ==> Parse(strtod, s) == SeparatorMissing
    ensures read.Got? && read.rest != [] && read.rest[0] == ';' ==>
              Parse(strtod, s) == Prepend([read.command], Parse(strtod, Skip(read.rest[1..])))
  {
  }

  lemma PrependNothing(r: ParseResult)
    ensures Prepend([], r) == r
  {
  }

  lemma PrependTwice(done: seq<Command>, c: Command, r: ParseResult)
    ensures Prepend(done, Prepend([c], r)) == Prepend(done + [c], r)
  {
  }

  // ----- Decimal numerals -----

  function Decimal(n: nat): (s: string)
    ensures s != []
  {
    if n < 10 then ["0123456789"[n]] else Decimal(n / 10) + ["0123456789"[n % 10]]
  }

  predicate AllZeros(s: string) {
    forall i :: 0 <= i < |s| ==> s[i] == '0'
  }

  predicate AllDigits(s: string) {
    forall i :: 0 <= i < |s| ==> IsDigit(s[i])
  }

  /** The characters that `isspace` and `isdigit` accept. */
  lemma CharacterClasses(c: char)
    ensures IsSpace(c) <==> c as int in {9, 10, 11, 12, 13, 32}
    ensures IsDigit(c) <==> c in "0123456789"
  {
    if IsDigit(c) {
      assert "0123456789"[c as int - '0' as int] == c;
    }
  }

  lemma {:induction false} ZerosAreZero(zeros: string)
    requires AllZeros(zeros)
    ensures AllDigits(zeros) && Number(zeros) == 0
  {
    if zeros != [] {
      ZerosAreZero(zeros[..|zeros| - 1]);
    }
  }

  lemma NumberSnoc(s: string, c: char)
    requires AllDigits(s) && IsDigit(c)
    ensures AllDigits(s + [c]) && Number(s + [c]) == 10 * Number(s) + (c as int - '0' as int)
  {
    assert (s + [c])[..|s|] == s;
  }

  lemma DecimalDigit(d: nat)
    requires d < 10
    ensures var c := "0123456789"[d]; IsDigit(c) && c as int - '0' as int == d
  {
  }

  /** Reading a printed number gives the number, with any zeros in front. */
  lemma {:induction false} NumberOfDecimal(zeros: string, n: nat)
    requires AllZeros(zeros)
    ensures AllDigits(zeros + Decimal(n)) && Number(zeros + Decimal(n)) == n
  {
    if n < 10 {
      ZerosAreZero(zeros);
      DecimalDigit(n);
      NumberSnoc(zeros, "0123456789"[n]);
    } else {
      var s, c := zeros + Decimal(n / 10), "0123456789"[n % 10];
      NumberOfDecimal(zeros, n / 10);
      DecimalDigit(n % 10);
      NumberSnoc(s, c);
      assert zeros + Decimal(n) == s + [c];
    }
  }

  /** `s` is the numeral with zeros in front. */
  predicate ZerosThen(s: string, numeral: string) {
    |numeral| <= |s| && s[|s| - |numeral|..] == numeral && AllZeros(s[..|s| - |numeral|])
  }

  lemma OneMoreDigit(t: string, c: char, before: nat, value: nat)
    requires IsDigit(c) && value == 10 * before + (c as int - '0' as int)
    requires if before == 0 then AllZeros(t) else ZerosThen(t, Decimal(before))
    ensures ZerosThen(t + [c], Decimal(value))
  {
    var d := c as int - '0' as int;
    DecimalDigit(d);
    if before == 0 {
      assert Decimal(value) == [c];
    } else {
      DecimalSnoc(before, d, value);
      LastPart(t, Decimal(before), c);
    }
  }

  /** And every string of digits is a printed number with zeros in front. */
  lemma {:induction false} DecimalOfNumber(s: string)
    requires AllDigits(s) && s != []
    ensures ZerosThen(s, Decimal(Number(s)))
  {
    var n := |s| - 1;
    var t, c := s[..n], s[n];
    assert IsDigit(c);
    NumberSnoc(t, c);
    assert s == t + [c];
    if Number(t) == 0 {
      NumberZero(t);
    } else {
      DecimalOfNumber(t);
    }
    OneMoreDigit(t, c, Number(t), Number(s));
  }

  lemma DecimalSnoc(n: nat, d: nat, value: nat)
    requires 0 < n && d < 10 && value == 10 * n + d
    ensures Decimal(value) == Decimal(n) + ["0123456789"[d]]
  {
  }

  lemma LastPart(s: string, part: string, c: char)
    requires |part| <= |s| && s[|s| - |part|..] == part
    ensures var t, more := s + [c], part + [c]; t[|t| - |more|..] == more && t[..|t| - |more|] == s[..|s| - |part|]
  {
  }

  lemma {:induction false} NumberZero(s: string)
    requires AllDigits(s) && Number(s) == 0
    ensures AllZeros(s)
  {
    if s != [] {
      NumberZero(s[..|s| - 1]);
    }
  }

  // ----- Round trip -----

  /** One command as it may be written: white space before, between and after, and zeros in
      front of the number of bytes. */
  datatype Written = Written(
    before: string,
    time: string,
    between: string,
    zeros: string,
    after: string,
    command: Command)

  function Bytes(w: Written): string {
    w.zeros + Decimal(w.command.numBytes)
  }

  predicate AllSpaces(s: string) {
    forall i :: 0 <= i < |s| ==> IsSpace(s[i])
  }

  /** The numerals stand for the command: `strtod` reads the time and stops at white space. */
  ghost predicate Renders(strtod: Scanner, w: Written) {
    && AllSpaces(w.before) && AllSpaces(w.between) && AllSpaces(w.after) && w.between != []
    && w.time != [] && !IsSpace(w.time[0]) && w.time[0] != ';'
    && (forall rest: string :: rest != [] && IsSpace(rest[0]) ==> strtod(w.time + rest) == (w.command.tSend, |w.time|))
    && AllZeros(w.zeros)
  }

  function Text(w: Written): string {
    w.before + (w.time + (w.between + (Bytes(w) + w.after)))
  }

  /** Commands separated by semicolons, `tail` is what follows the last one. */
  function Script(ws: seq<Written>, tail: string): string {
    if ws == [] then tail
    else if |ws| == 1 then Text(ws[0]) + tail
    else Text(ws[0]) + (";" + Script(ws[1..], tail))
  }

  function Meaning(ws: seq<Written>): seq<Command> {
    if ws == [] then [] else [ws[0].command] + Meaning(ws[1..])
  }

  lemma {:induction false} SkipOver(a: string, b: string)
    requires AllSpaces(a) && (b == [] || !IsSpace(b[0]))
    ensures Skip(a + b) == b
  {
    if a == [] {
      assert a + b == b;
    } else {
      assert (a + b)[1..] == a[1..] + b;
      SkipOver(a[1..], b);
      assert (a + b)[Spaces(a + b)..] == (a[1..] + b)[Spaces(a[1..] + b)..];
    }
  }

  lemma {:induction false} DigitsOf(a: string, b: string)
    requires (forall i :: 0 <= i < |a| ==> IsDigit(a[i])) && (b == [] || !IsDigit(b[0]))
    ensures Digits(a + b) == |a|
  {
    if a == [] {
      assert a + b == b;
    } else {
      assert (a + b)[1..] == a[1..] + b;
      DigitsOf(a[1..], b);
    }
  }

  lemma Regroup(w: Written, rest: string)
    ensures Text(w) + rest == w.before + (w.time + (w.between + (Bytes(w) + (w.after + rest))))
  {
  }

  /** What follows a command does not belong to it: neither white space nor more digits. */
  predicate Stops(w: Written, rest: string) {
    rest == [] || (!IsSpace(rest[0]) && (w.after == [] ==> !IsDigit(rest[0])))
  }

  lemma ReadBytesOf(w: Written, time: real, rest: string)
    requires AllSpaces(w.between) && AllSpaces(w.after) && AllZeros(w.zeros)
    requires Stops(w, rest)
    ensures ReadBytes(time, w.between + (Bytes(w) + (w.after + rest))) == Got(Command(time, w.command.numBytes), rest)
  {
    var bytes, s4 := Bytes(w), w.after + rest;
    var s3 := bytes + s4;
    NumberOfDecimal(w.zeros, w.command.numBytes);
    assert IsDigit(bytes[0]) && s3[0] == bytes[0];
    SkipOver(w.between, s3);
    DigitsOf(bytes, s4);
    assert s3[..|bytes|] == bytes && s3[|bytes|..] == s4;
    SkipOver(w.after, rest);
  }

  /** Reading one written command leaves exactly what follows it. */
  lemma ReadOne(strtod: Scanner, w: Written, rest: string)
    requires Bounded(strtod) && Renders(strtod, w)
    requires Stops(w, rest)
    ensures ReadCommand(strtod, Text(w) + rest) == Got(w.command, rest)
  {
    var s2 := w.between + (Bytes(w) + (w.after + rest));
    var s1 := w.time + s2;
    Regroup(w, rest);
    assert s1[0] == w.time[0];
    SkipOver(w.before, s1);
    assert s2[0] == w.between[0];
    assert strtod(s1) == (w.command.tSend, |w.time|);
    assert s1[|w.time|..] == s2;
    ReadBytesOf(w, w.command.tSend, rest);
  }

  lemma ParseOne(strtod: Scanner, w: Written, rest: string)
    requires Bounded(strtod) && Renders(strtod, w)
    requires rest == [] || rest[0] == ';'
    ensures Parse(strtod, Text(w) + rest) ==
            if rest == [] then Commands([w.command]) else Prepend([w.command], Parse(strtod, rest[1..]))
  {
    ReadOne(strtod, w, rest);
    ParseStep(strtod, Text(w) + rest, w.command, rest);
  }

  lemma ParseSkips(strtod: Scanner, s: string)
    requires Bounded(strtod)
    ensures Parse(strtod, Skip(s)) == Parse(strtod, s)
  {
    assert Spaces(Skip(s)) == 0;
    assert ReadCommand(strtod, Skip(s)) == ReadCommand(strtod, s);
  }

  lemma ParseStep(strtod: Scanner, s: string, c: Command, rest: string)
    requires Bounded(strtod) && ReadCommand(strtod, s) == Got(c, rest)
    requires rest == [] || rest[0] == ';'
    ensures Parse(strtod, s) == if rest == [] then Commands([c]) else Prepend([c], Parse(strtod, rest[1..]))
  {
    ParseUnfolds(strtod, s, Got(c, rest));
    if rest != [] {
      ParseSkips(strtod, rest[1..]);
    }
  }

  /** However the commands are written, they are read, and then what follows the semicolon
      behind them, if there is one. */
  lemma {:induction false} ParseScriptThenRest(strtod: Scanner, ws: seq<Written>, tail: string)
    requires Bounded(strtod) && ws != [] && forall i :: 0 <= i < |ws| ==> Renders(strtod, ws[i])
    requires tail == [] || tail[0] == ';'
    ensures Parse(strtod, Script(ws, tail)) ==
            if tail == [] then Commands(Meaning(ws)) else Prepend(Meaning(ws), Parse(strtod, tail[1..]))
    decreases |ws|
  {
    if |ws| == 1 {
      ParseOne(strtod, ws[0], tail);
      assert Meaning(ws) == [ws[0].command];
    } else {
      var more := Script(ws[1..], tail);
      ParseOne(strtod, ws[0], ";" + more);
      ParseScriptThenRest(strtod, ws[1..], tail);
      assert (";" + more)[1..] == more;
      if tail != [] {
        PrependConcat(ws[0].command, Meaning(ws[1..]), Parse(strtod, tail[1..]));
      }
    }
  }

  lemma PrependConcat(c: Command, done: seq<Command>, r: ParseResult)
    ensures Prepend([c], Prepend(done, r)) == Prepend([c] + done, r)
  {
  }

  lemma PrependsNothingIff(done: seq<Command>, r: ParseResult)
    ensures Prepend(done, r) == Commands(done) <==> r == Commands([])
  {
    if r.Commands? {
      assert |done + r.commands| == |done| + |r.commands|;
      assert r.commands == [] ==> done + r.commands == done;
    }
  }

  lemma EndsIff(strtod: Scanner, rest: string)
    requires Bounded(strtod)
    ensures Parse(strtod, rest) == Commands([]) <==> Skip(rest) == [] || Skip(rest)[0] == ';'
  {
    var read := ReadCommand(strtod, rest);
    ParseUnfolds(strtod, rest, read);
  }

  /** Any way of writing a list of commands, with or without a final semicolon and white
      space after it, is read back as that list. */
  lemma ParseUndoesScript(strtod: Scanner, ws: seq<Written>, tail: string)
    requires Bounded(strtod) && forall i :: 0 <= i < |ws| ==> Renders(strtod, ws[i])
    requires tail == [] || (tail[0] == ';' && AllSpaces(tail[1..]))
    ensures Parse(strtod, Script(ws, tail)) == Commands(Meaning(ws))
  {
    if ws == [] {
      assert Skip(tail) == tail;
    } else {
      ParseScriptThenRest(strtod, ws, tail);
      if tail != [] {
        PrependsNothingIff(Meaning(ws), Parse(strtod, tail[1..]));
      }
    }
  }

  /** Text behind the semicolon of the last command is dropped, without an error, exactly if its
      first character that is not white space is another semicolon; with nothing but white space
      there is nothing to drop. */
  lemma RestDroppedIff(strtod: Scanner, ws: seq<Written>, rest: string)
    requires Bounded(strtod) && ws != [] && forall i :: 0 <= i < |ws| ==> Renders(strtod, ws[i])
    ensures Parse(strtod, Script(ws, ";" + rest)) == Commands(Meaning(ws))
            <==> Skip(rest) == [] || Skip(rest)[0] == ';'
  {
    ParseScriptThenRest(strtod, ws, ";" + rest);
    assert (";" + rest)[1..] == rest;
    EndsIff(strtod, rest);
    PrependsNothingIff(Meaning(ws), Parse(strtod, rest));
  }

  /** So a stray semicolon ends the script, whatever commands come before and behind it. */
  lemma EmptyCommandEndsScript(strtod: Scanner, ws: seq<Written>, spaces: string, rest: string)
    requires Bounded(strtod) && AllSpaces(spaces) && forall i :: 0 <= i < |ws| ==> Renders(strtod, ws[i])
    ensures Parse(strtod, Script(ws, ";" + (spaces + (";" + rest)))) == Commands(Meaning(ws))
  {
    if ws == [] {
      SkipOver([], ";" + (spaces + (";" + rest)));
    } else {
      SkipOver(spaces, ";" + rest);
      RestDroppedIff(strtod, ws, spaces + (";" + rest));
    }
  }

  // ----- The errors -----

  /** `rest` where the next command starts. */
  function After(ws: seq<Written>, rest: string): string {
    if ws == [] then rest else Script(ws, ";" + rest)
  }

  /** After commands that are read, the errors of the rest are those of the script. */
  lemma RestFails(strtod: Scanner, ws: seq<Written>, rest: string)
    requires Bounded(strtod) && forall i :: 0 <= i < |ws| ==> Renders(strtod, ws[i])
    requires !Parse(strtod, rest).Commands?
    ensures Parse(strtod, After(ws, rest)) == Parse(strtod, rest)
  {
    if ws != [] {
      ParseScriptThenRest(strtod, ws, ";" + rest);
      assert (";" + rest)[1..] == rest;
    }
  }

  /** Where a command should start, text that is no number is an error. */
  lemma TimeExpectedIf(strtod: Scanner, ws: seq<Written>, spaces: string, rest: string)
    requires Bounded(strtod) && AllSpaces(spaces) && forall i :: 0 <= i < |ws| ==> Renders(strtod, ws[i])
    requires rest != [] && !IsSpace(rest[0]) && rest[0] != ';' && strtod(rest).1 == 0
    ensures Parse(strtod, After(ws, spaces + rest)) == TimeExpected
  {
    SkipOver(spaces, rest);
    RestFails(strtod, ws, spaces + rest);
  }

  /** Behind a time there has to be a digit. */
  lemma BytesExpectedIf(strtod: Scanner, ws: seq<Written>, before: string, time: string, between: string, rest: string)
    requires Bounded(strtod) && AllSpaces(before) && AllSpaces(between)
    requires forall i :: 0 <= i < |ws| ==> Renders(strtod, ws[i])
    requires time != [] && !IsSpace(time[0]) && time[0] != ';'
    requires strtod(time + (between + rest)).1 == |time|
    requires rest == [] || !(IsSpace(rest[0]) || IsDigit(rest[0]))
    ensures Parse(strtod, After(ws, before + (time + (between + rest)))) == BytesExpected
  {
    var s := time + (between + rest);
    assert s[0] == time[0] && s[|time|..] == between + rest;
    SkipOver(before, s);
    SkipOver(between, rest);
    RestFails(strtod, ws, before + s);
  }

  /** Behind a command there has to be a semicolon, or the end. */
  lemma SeparatorMissingIf(strtod: Scanner, ws: seq<Written>, w: Written, rest: string)
    requires Bounded(strtod) && Renders(strtod, w) && forall i :: 0 <= i < |ws| ==> Renders(strtod, ws[i])
    requires rest != [] && rest[0] != ';' && Stops(w, rest)
    ensures Parse(strtod, After(ws, Text(w) + rest)) == SeparatorMissing
  {
    ReadOne(strtod, w, rest);
    ParseUnfolds(strtod, Text(w) + rest, Got(w.command, rest));
    RestFails(strtod, ws, Text(w) + rest);
  }

  // ----- Carrying out the script -----

  datatype Sent = Sent(time: real, numBytes: nat)

  /** The send loop: before each command it waits until the command's time, if that is
      still to come. Every send is at the latest of the time at which the connection was
      established and the script times so far, with the bytes in script order. */
  method SendAll(established: real, commands: seq<Command>) returns (sends: seq<Sent>)
    ensures |sends| == |commands|
    ensures forall k :: 0 <= k < |sends| ==> sends[k].numBytes == commands[k].numBytes
    ensures forall k :: 0 <= k < |sends| ==> established <= sends[k].time
    ensures forall j, k :: 0 <= j <= k < |sends| ==> commands[j].tSend <= sends[k].time
    ensures forall k :: 0 <= k < |sends| ==>
              sends[k].time == established || exists j :: 0 <= j <= k && sends[k].time == commands[j].tSend
  {
    sends := [];
    var now := established;
    for i := 0 to |commands|
      invariant |sends| == i && established <= now
      invariant forall j :: 0 <= j < i ==> commands[j].tSend <= now && sends[j].numBytes == commands[j].numBytes
      invariant forall k :: 0 <= k < i ==> established <= sends[k].time <= now
      invariant forall j, k :: 0 <= j <= k < i ==> commands[j].tSend <= sends[k].time
      invariant now == established || exists j :: 0 <= j < i && now == commands[j].tSend
      invariant forall k :: 0 <= k < i ==>
                  sends[k].time == established || exists j :: 0 <= j <= k && sends[k].time == commands[j].tSend
    {
      now := WaitUntil(now, commands[i].tSend);
      sends := sends + [Sent(now, commands[i].numBytes)];
    }
  }

  method WaitUntil(now: real, t: real) returns (later: real)
    ensures later >= now && later >= t && (later == now || later == t)
  {
    if now >= t {
      return now;
    }
    later := t;
  }
}
