/**
 The socket appender's messages: big-endian integers, strings preceded by their length,
 and the logging event made of them.  Narrow characters only.
 */
module WireFormat {
  type Byte = x: int | 0 <= x < 256
  type Text = seq<Byte>

  const WORD := 0x1_0000_0000

  /** The four bytes of the conversion of v to an unsigned int. */
  function IntBytes(v: int): (b: seq<Byte>)
    ensures |b| == 4
  {
    var u := v % WORD;
    [u / 0x100_0000, u / 0x1_0000 % 0x100, u / 0x100 % 0x100, u % 0x100]
  }

  function IntOf(b: seq<Byte>): (u: nat)
    requires |b| == 4
    ensures u < WORD
  {
    ((b[0] as int * 0x100 + b[1]) * 0x100 + b[2]) * 0x100 + b[3]
  }

  lemma IntRoundTrip(v: int)
    ensures IntOf(IntBytes(v)) == v % WORD
  {
    var u := v % WORD;
    var h, l := u / 0x1_0000, u % 0x1_0000;
    assert u == 0x1_0000 * h + l;
    assert u / 0x100_0000 == h / 0x100 by { assert h == 0x100 * (h / 0x100) + h % 0x100; }
    assert u / 0x100 % 0x100 == l / 0x100 by {
      assert u / 0x100 == 0x100 * h + l / 0x100;
    }
    assert u % 0x100 == l % 0x100;
  }

  /** The conversion of an unsigned int to int. */
  function Signed(u: int): int {
    if u < 0x8000_0000 then u else u - WORD
  }

  predicate IsInt(v: int) {
    -0x8000_0000 <= v < 0x8000_0000
  }

  function StringBytes(s: Text): (b: seq<Byte>)
    ensures |b| == 4 + |s|
  {
    IntBytes(|s|) + s
  }

  // ----- Reading: from the bytes that are left in the buffer -----

  /** A value and what is left after it, or an exception. */
  datatype Read<T> = Got(value: T, rest: seq<Byte>) | Thrown {
    predicate IsFailure() {
      Thrown?
    }
    function PropagateFailure<U>(): Read<U>
      requires Thrown?
    {
      Thrown
    }
    function Extract(): (T, seq<Byte>)
      requires Got?
    {
      (value, rest)
    }
  }

  /** Past the end every number is zero, and nothing is consumed. */
  function ReadByte(b: seq<Byte>): (Byte, seq<Byte>) {
    if |b| < 1 then (0, b) else (b[0], b[1..])
  }

  function ReadShort(b: seq<Byte>): (nat, seq<Byte>) {
    if |b| < 2 then (0, b) else (b[0] as int * 0x100 + b[1], b[2..])
  }

  function ReadInt(b: seq<Byte>): (nat, seq<Byte>) {
    if |b| < 4 then (0, b) else (IntOf(b[..4]), b[4..])
  }

  /** Two bytes for a character; what does not fit into one becomes a space. */
  function ReadShorts(b: seq<Byte>, n: nat): (Text, seq<Byte>)
    decreases n
  {
    if n == 0 then ([], b)
    else
      var (c, b1) := ReadShort(b);
      var (s, b2) := ReadShorts(b1, n - 1);
      ([if c < 256 then c else 32] + s, b2)
  }

  /** n characters of the given size; other sizes are reported and nothing is consumed. */
  function Characters(b: seq<Byte>, n: nat, sizeOfChar: Byte): (Text, seq<Byte>)
    requires sizeOfChar == 1 ==> n <= |b|
  {
    if sizeOfChar == 1 then (b[..n], b[n..])
    else if sizeOfChar == 2 then ReadShorts(b, n)
    else ([], b)
  }

  /** How many characters are taken for a length of len.  One that overruns the buffer is cut to what precedes
      its last byte. */
  function Cut(len: nat, sizeOfChar: Byte, left: nat): (n: nat)
    ensures sizeOfChar == 1 && (len <= left || left > 0) ==> n <= left
  {
    if len * sizeOfChar > left > 0 then (left - 1) / sizeOfChar else len
  }

  /** readString.  When nothing at all is left the cut length wraps around, and no string is that long. */
  function ReadString(b: seq<Byte>, sizeOfChar: Byte): Read<Text> {
    var (len, b) := ReadInt(b);
    if len == 0 then Got([], b)
    else if len * sizeOfChar > |b| == 0 && sizeOfChar <= 2 then Thrown
    else
      var (s, b') := Characters(b, Cut(len, sizeOfChar, |b|), sizeOfChar);
      Got(s, b')
  }

  // ----- The logging event -----

  datatype Event = Event(
    logger: Text, level: int, ndc: Text, mdc: map<Text, Text>, message: Text, thread: Text, thread2: Text,
    sec: int, usec: int, file: Text, line: int, method_: Text)

  const VERSION: Byte := 3

  /** The fields of a message in the order they are written. */
  function Message(e: Event, server: Text): (b: seq<Byte>)
    ensures |b| == 46 + |server| + |e.logger| + |e.ndc| + |e.message| + |e.thread| + |e.file| + |e.method_|
  {
    [VERSION] + ([1] + (StringBytes(server) + (StringBytes(e.logger) + (IntBytes(e.level) + (StringBytes(e.ndc)
    + (StringBytes(e.message) + (StringBytes(e.thread) + Place(e))))))))
  }

  /** The end of a message: when and where. */
  function Place(e: Event): seq<Byte> {
    IntBytes(e.sec) + (IntBytes(e.usec) + (StringBytes(e.file) + (IntBytes(e.line) + StringBytes(e.method_))))
  }

  const SEPARATOR: Text := [32, 45, 32]

  function Prefixed(server: Text, ndc: Text): Text {
    if server == [] then ndc else if ndc == [] then server else server + SEPARATOR + ndc
  }

  /** readFromBuffer; a wrong version is only warned about. */
  function Decode(b: seq<Byte>): Read<Event> {
    var (version, b) := ReadByte(b);
    var (sizeOfChar, b) := ReadByte(b);
    var (server, b) :- ReadString(b, sizeOfChar);
    var (logger, b) :- ReadString(b, sizeOfChar);
    var (level, b) := ReadInt(b);
    var (ndc, b) :- ReadString(b, sizeOfChar);
    var (message, b) :- ReadString(b, sizeOfChar);
    var (thread, b) :- ReadString(b, sizeOfChar);
    var (sec, b) := ReadInt(b);
    var (usec, b) := ReadInt(b);
    var (file, b) :- ReadString(b, sizeOfChar);
    var (line, b) := ReadInt(b);
    var (method_, b) :- ReadString(b, sizeOfChar);
    Got(Event(logger, Signed(level), Prefixed(server, ndc), map[], message, thread, [], sec, usec, file,
              Signed(line), method_), b)
  }

  /** What arrives of an event: before its nested context, if it has any, the server's name and " - ". */
  function Received(e: Event, server: Text): Event {
    e.(ndc := if server == [] || e.ndc == [] then server + e.ndc
              else server + [' ' as int, '-' as int, ' ' as int] + e.ndc,
       mdc := map[], thread2 := [],
       level := Signed(e.level % WORD), line := Signed(e.line % WORD), sec := e.sec % WORD, usec := e.usec % WORD)
  }

  // ----- The round trip -----

  lemma ReadByteOf(v: Byte, rest: seq<Byte>)
    ensures ReadByte([v] + rest) == (v, rest)
  {
    assert ([v] + rest)[1..] == rest;
  }

  lemma ReadIntOf(v: int, rest: seq<Byte>)
    ensures ReadInt(IntBytes(v) + rest) == (v % WORD, rest)
  {
    var b := IntBytes(v) + rest;
    assert b[..4] == IntBytes(v) && b[4..] == rest;
    IntRoundTrip(v);
  }

  lemma SmallRemainder(n: nat)
    requires n < WORD
    ensures n % WORD == n
  {
  }

  lemma ReadLength(n: nat, rest: seq<Byte>)
    requires n < WORD
    ensures ReadInt(IntBytes(n) + rest) == (n, rest)
  {
    ReadIntOf(n, rest);
    SmallRemainder(n);
  }

  lemma ReadStringOf(s: Text, rest: seq<Byte>)
    requires |s| < WORD
    ensures ReadString(StringBytes(s) + rest, 1) == Got(s, rest)
  {
    assert StringBytes(s) + rest == IntBytes(|s|) + (s + rest);
    ReadLength(|s|, s + rest);
    var b := s + rest;
    assert b[..|s|] == s && b[|s|..] == rest;
  }

  lemma PrefixedIs(server: Text, ndc: Text)
    ensures Prefixed(server, ndc)
            == if server == [] || ndc == [] then server + ndc
               else server + [' ' as int, '-' as int, ' ' as int] + ndc
  {
    assert server == [] ==> server + ndc == ndc;
    assert ndc == [] ==> server + ndc == server;
  }

  // ----- Strings that this program does not write -----

  /** A sender with two bytes for a character. */
  function ShortBytes(cs: seq<nat>): seq<Byte>
    requires forall i :: 0 <= i < |cs| ==> cs[i] < 0x1_0000
  {
    if cs == [] then [] else [cs[0] / 0x100, cs[0] % 0x100] + ShortBytes(cs[1..])
  }

  lemma {:induction false} ReadShortsOf(cs: seq<nat>, rest: seq<Byte>)
    requires forall i :: 0 <= i < |cs| ==> cs[i] < 0x1_0000
    ensures var (s, left) := ReadShorts(ShortBytes(cs) + rest, |cs|);
            left == rest && |s| == |cs| && forall i :: 0 <= i < |s| ==> s[i] == if cs[i] < 256 then cs[i] else ' ' as int
    decreases |cs|
  {
    var b := ShortBytes(cs) + rest;
    if cs == [] {
      assert b == rest;
    } else {
      assert b[0] == cs[0] / 0x100 && b[1] == cs[0] % 0x100 && b[2..] == ShortBytes(cs[1..]) + rest;
      ReadShortsOf(cs[1..], rest);
    }
  }

  lemma {:induction false} ShortBytesLength(cs: seq<nat>)
    requires forall i :: 0 <= i < |cs| ==> cs[i] < 0x1_0000
    ensures |ShortBytes(cs)| == 2 * |cs|
    decreases |cs|
  {
    if cs != [] { ShortBytesLength(cs[1..]); }
  }

  lemma {:induction false} WideCharacters(cs: seq<nat>, rest: seq<Byte>, x: seq<Byte>)
    requires forall i :: 0 <= i < |cs| ==> cs[i] < 0x1_0000
    requires ReadInt(x) == (|cs|, ShortBytes(cs) + rest)
    ensures var r := ReadString(x, 2);
            && r.Got? && r.rest == rest && |r.value| == |cs|
            && forall i :: 0 <= i < |cs| ==> r.value[i] == if cs[i] < 256 then cs[i] else ' ' as int
  {
    ShortBytesLength(cs);
    ReadShortsOf(cs, rest);
  }

  /** Of a wide string the characters that fit one byte arrive, and a space for each of the others. */
  lemma {:induction false} ReadWideStringOf(cs: seq<nat>, rest: seq<Byte>)
    requires |cs| < WORD && forall i :: 0 <= i < |cs| ==> cs[i] < 0x1_0000
    ensures var r := ReadString(IntBytes(|cs|) + (ShortBytes(cs) + rest), 2);
            && r.Got? && r.rest == rest && |r.value| == |cs|
            && forall i :: 0 <= i < |cs| ==> r.value[i] == if cs[i] < 256 then cs[i] else ' ' as int
  {
    ReadLength(|cs|, ShortBytes(cs) + rest);
    WideCharacters(cs, rest, IntBytes(|cs|) + (ShortBytes(cs) + rest));
  }

  /** Where fewer bytes follow than a string's length announces, all of them but the last are the string; where
      none follow, an exception is thrown. */
  lemma ReadCutString(len: int, b: seq<Byte>)
    requires |b| < len < WORD
    ensures ReadString(IntBytes(len) + b, 1)
            == if b == [] then Thrown else Got(b[..|b| - 1], b[|b| - 1..])
  {
    ReadLength(len, b);
  }

  /** Too short a message is no error: it decodes to an event whose every field is empty or zero. */
  lemma DecodeOfTooLittle(b: seq<Byte>)
    requires |b| < 6
    ensures Decode(b).Got? && Decode(b).value == Event([], 0, [], map[], [], [], [], 0, 0, [], 0, [])
  {
    var left := ReadByte(ReadByte(b).1).1;
    assert ReadInt(left) == (0, left);
    forall size ensures ReadString(left, size) == Got([], left) {}
  }

  /** A message decodes to what arrives of its event. */
  lemma DecodeOfMessage(e: Event, server: Text)
    requires |Message(e, server)| < WORD
    ensures Decode(Message(e, server)) == Got(Received(e, server), [])
  {
    var t12 := StringBytes(e.method_);
    var t11 := IntBytes(e.line) + t12;
    var t10 := StringBytes(e.file) + t11;
    var t9 := IntBytes(e.usec) + t10;
    var t8 := IntBytes(e.sec) + t9;
    var t7 := StringBytes(e.thread) + t8;
    var t6 := StringBytes(e.message) + t7;
    var t5 := StringBytes(e.ndc) + t6;
    var t4 := IntBytes(e.level) + t5;
    var t3 := StringBytes(e.logger) + t4;
    var t2 := StringBytes(server) + t3;
    var t1 := [1] + t2;
    assert Message(e, server) == [VERSION] + t1;
    ReadByteOf(VERSION, t1);
    ReadByteOf(1, t2);
    ReadStringOf(server, t3);
    ReadStringOf(e.logger, t4);
    ReadIntOf(e.level, t5);
    ReadStringOf(e.ndc, t6);
    ReadStringOf(e.message, t7);
    ReadStringOf(e.thread, t8);
    ReadIntOf(e.sec, t9);
    ReadIntOf(e.usec, t10);
    ReadStringOf(e.file, t11);
    ReadIntOf(e.line, t12);
    ReadStringOf(e.method_, []);
    assert t12 + [] == t12;
    PrefixedIs(server, e.ndc);
  }

  /** Everything but the diagnostic context arrives unchanged exactly when the seconds fit 32 bits. */
  lemma ReceivedSameIff(e: Event, server: Text)
    requires IsInt(e.level) && IsInt(e.line) && 0 <= e.usec < 1_000_000
    ensures var r := Received(e, server);
            r == e.(ndc := r.ndc, mdc := map[], thread2 := []) <==> 0 <= e.sec < WORD
  {
    assert Signed(e.level % WORD) == e.level && Signed(e.line % WORD) == e.line;
  }
}
