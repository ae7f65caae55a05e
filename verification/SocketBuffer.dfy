/** The byte buffer that messages are written to and read from, and the two conversions that use it. */
module SocketBuffer {
  import opened W = WireFormat

  class SocketBuffer {
    const maxsize: nat
    const buffer: array<Byte>
    var size: nat
    var pos: nat

    ghost predicate Valid()
      reads this
    {
      buffer.Length == maxsize && size <= maxsize && pos <= maxsize
    }

    ghost function Written(): seq<Byte>
      requires Valid()
      reads this, buffer
    {
      buffer[..pos]
    }

    ghost function Left(): seq<Byte>
      requires Valid()
      reads this, buffer
    {
      buffer[pos..]
    }

    constructor (maxsize: nat)
      ensures Valid() && this.maxsize == maxsize && size == 0 && pos == 0 && fresh(buffer)
    {
      this.maxsize := maxsize;
      buffer := new Byte[maxsize];
      size, pos := 0, 0;
    }

    // ----- Reading -----

    method ReadByte() returns (r: Byte)
      requires Valid()
      modifies this`pos
      ensures Valid() && (r, Left()) == W.ReadByte(old(Left()))
    {
      if pos + 1 > maxsize {
        return 0;
      }
      r := buffer[pos];
      pos := pos + 1;
    }

    method ReadShort() returns (r: nat)
      requires Valid()
      modifies this`pos
      ensures Valid() && (r, Left()) == W.ReadShort(old(Left()))
    {
      if pos + 2 > maxsize {
        return 0;
      }
      r := buffer[pos] as int * 0x100 + buffer[pos + 1];
      pos := pos + 2;
    }

    method ReadInt() returns (r: nat)
      requires Valid()
      modifies this`pos
      ensures Valid() && (r, Left()) == W.ReadInt(old(Left()))
    {
      if pos + 4 > maxsize {
        return 0;
      }
      ghost var left := Left();
      r := IntOf(buffer[pos..pos + 4]);
      assert left[..4] == buffer[pos..pos + 4];
      pos := pos + 4;
    }

    /** The wide characters of a string, one after the other. */
    method ReadWide(strlen: nat) returns (s: Text)
      requires Valid()
      modifies this`pos
      ensures Valid() && (s, Left()) == ReadShorts(old(Left()), strlen)
    {
      s := [];
      var i := 0;
      ghost var result := ReadShorts(Left(), strlen);
      while i < strlen
        invariant i <= strlen && Valid()
        invariant result.0 == s + ReadShorts(Left(), strlen - i).0
        invariant result.1 == ReadShorts(Left(), strlen - i).1
      {
        ghost var was := s;
        var tmp := ReadShort();
        var c: Byte := if tmp < 256 then tmp else 32;
        s := s + [c];
        i := i + 1;
        Assoc(was, [c], ReadShorts(Left(), strlen - i).0);
      }
      assert s + [] == s;
    }

    method TakeCharacters(strlen: nat, sizeOfChar: Byte) returns (s: Text)
      requires Valid() && (sizeOfChar == 1 ==> pos + strlen <= maxsize)
      modifies this`pos
      ensures Valid() && (s, Left()) == Characters(old(Left()), strlen, sizeOfChar)
    {
      s := [];
      if sizeOfChar == 1 {
        s := buffer[pos..pos + strlen];
        pos := pos + strlen;
        assert s == old(Left())[..strlen];
      } else if sizeOfChar == 2 {
        s := ReadWide(strlen);
      }
    }

    method ReadString(sizeOfChar: Byte) returns (ok: bool, s: Text)
      requires Valid()
      modifies this`pos
      ensures Valid() && W.ReadString(old(Left()), sizeOfChar) == if ok then Got(s, Left()) else Thrown
    {
      ok, s := true, [];
      var strlen := ReadInt();
      var bufferLen := strlen * sizeOfChar;
      if strlen == 0 {
        return;
      }
      ghost var n := Cut(strlen, sizeOfChar, maxsize - pos);
      if pos + bufferLen > maxsize {
        if pos == maxsize {
          ok := sizeOfChar > 2;
          return;
        }
        bufferLen := maxsize - 1 - pos;
        strlen := bufferLen / sizeOfChar;
      }
      assert strlen == n;
      s := TakeCharacters(strlen, sizeOfChar);
    }

    // ----- Writing: false where the program throws -----

    /** memcpy to the position, which moves on. */
    method Copy(data: seq<Byte>)
      requires Valid() && pos + |data| <= maxsize
      modifies this, buffer
      ensures Valid() && pos == old(pos) + |data| && size == pos && Written() == old(Written()) + data
    {
      var i := 0;
      while i < |data|
        invariant i <= |data| && pos == old(pos) && size == old(size) && Valid()
        invariant buffer[..pos + i] == old(Written()) + data[..i]
      {
        buffer[pos + i] := data[i];
        i := i + 1;
        assert buffer[..pos + i] == buffer[..pos + i - 1] + [data[i - 1]];
      }
      pos := pos + |data|;
      size := pos;
    }

    ghost predicate Appends(data: seq<Byte>, before: seq<Byte>, ok: bool)
      requires Valid()
      reads this, buffer
    {
      && (ok <==> |before| + |data| <= maxsize)
      && Written() == if ok then before + data else before
    }

    method AppendByte(v: Byte) returns (ok: bool)
      requires Valid()
      modifies this, buffer
      ensures Valid() && Appends([v], old(Written()), ok) && size == (if ok then pos else old(size))
    {
      if pos + 1 > maxsize {
        return false;
      }
      Copy([v]);
      ok := true;
    }

    method AppendInt(v: int) returns (ok: bool)
      requires Valid()
      modifies this, buffer
      ensures Valid() && Appends(IntBytes(v), old(Written()), ok) && size == (if ok then pos else old(size))
    {
      if pos + 4 > maxsize {
        return false;
      }
      Copy(IntBytes(v));
      ok := true;
    }

    method AppendString(s: Text) returns (ok: bool)
      requires Valid()
      modifies this, buffer
      ensures Valid() && Appends(StringBytes(s), old(Written()), ok) && size == (if ok then pos else old(size))
    {
      if pos + 4 + |s| > maxsize {
        return false;
      }
      ghost var before := Written();
      ok := AppendInt(|s|);
      Copy(s);
      assert before + IntBytes(|s|) + s == before + StringBytes(s);
    }
  }

  // ----- convertToBuffer and readFromBuffer -----

  lemma Assoc(a: seq<Byte>, b: seq<Byte>, c: seq<Byte>)
    ensures a + b + c == a + (b + c)
  {
  }

  /** The file, line and function of an event, preceded by its time. */
  method ConvertPlace(buffer: SocketBuffer, e: Event) returns (ok: bool)
    requires buffer.Valid()
    modifies buffer, buffer.buffer
    ensures buffer.Valid()
    ensures ok <==> old(buffer.pos) + |Place(e)| <= buffer.maxsize
    ensures ok ==> buffer.Written() == old(buffer.Written()) + Place(e) && buffer.size == buffer.pos
  {
    ghost var w0 := buffer.Written();
    ghost var t4 := StringBytes(e.method_);
    ghost var t3 := IntBytes(e.line) + t4;
    ghost var t2 := StringBytes(e.file) + t3;
    ghost var t1 := IntBytes(e.usec) + t2;
    ok := buffer.AppendInt(e.sec);
    if !ok { return; }
    ghost var w1 := buffer.Written();
    Assoc(w0, IntBytes(e.sec), t1);
    ok := buffer.AppendInt(e.usec);
    if !ok { return; }
    ghost var w2 := buffer.Written();
    Assoc(w1, IntBytes(e.usec), t2);
    ok := buffer.AppendString(e.file);
    if !ok { return; }
    ghost var w3 := buffer.Written();
    Assoc(w2, StringBytes(e.file), t3);
    ok := buffer.AppendInt(e.line);
    if !ok { return; }
    Assoc(w3, IntBytes(e.line), t4);
    ok := buffer.AppendString(e.method_);
  }

  /** All of a message is written if it fits; otherwise an exception ends the conversion. */
  method ConvertToBuffer(buffer: SocketBuffer, e: Event, server: Text) returns (ok: bool)
    requires buffer.Valid() && buffer.pos == 0
    modifies buffer, buffer.buffer
    ensures buffer.Valid()
    ensures ok <==> |Message(e, server)| <= buffer.maxsize
    ensures ok ==> buffer.buffer[..buffer.size] == Message(e, server)
  {
    ok := ConvertHead(buffer, e, server);
    if !ok { return; }
    ghost var w := buffer.Written();
    ghost var t7 := StringBytes(e.thread) + Place(e);
    HeadAndRest(e, server);
    ok := buffer.AppendString(e.message);
    if !ok { return; }
    ghost var w6 := buffer.Written();
    Assoc(w, StringBytes(e.message), t7);
    ok := buffer.AppendString(e.thread);
    if !ok { return; }
    Assoc(w6, StringBytes(e.thread), Place(e));
    ok := ConvertPlace(buffer, e);
  }

  function Head(e: Event, server: Text): seq<Byte> {
    [VERSION] + [1] + StringBytes(server) + StringBytes(e.logger) + IntBytes(e.level) + StringBytes(e.ndc)
  }

  lemma HeadAndRest(e: Event, server: Text)
    ensures Message(e, server)
            == Head(e, server) + (StringBytes(e.message) + (StringBytes(e.thread) + Place(e)))
  {
    var t6 := StringBytes(e.message) + (StringBytes(e.thread) + Place(e));
    var t5 := StringBytes(e.ndc) + t6;
    var t4 := IntBytes(e.level) + t5;
    var t3 := StringBytes(e.logger) + t4;
    var t2 := StringBytes(server) + t3;
    Assoc([VERSION], [1], t2);
    var h := [VERSION] + [1];
    Assoc(h, StringBytes(server), t3);
    Assoc(h + StringBytes(server), StringBytes(e.logger), t4);
    Assoc(h + StringBytes(server) + StringBytes(e.logger), IntBytes(e.level), t5);
    Assoc(h + StringBytes(server) + StringBytes(e.logger) + IntBytes(e.level), StringBytes(e.ndc), t6);
  }

  method ConvertHead(buffer: SocketBuffer, e: Event, server: Text) returns (ok: bool)
    requires buffer.Valid() && buffer.pos == 0
    modifies buffer, buffer.buffer
    ensures buffer.Valid()
    ensures ok <==> |Head(e, server)| <= buffer.maxsize
    ensures ok ==> buffer.Written() == Head(e, server)
  {
    ok := buffer.AppendByte(VERSION);
    if !ok { return; }
    assert buffer.Written() == [VERSION];
    ok := buffer.AppendByte(1);
    if !ok { return; }
    ok := buffer.AppendString(server);
    if !ok { return; }
    ok := buffer.AppendString(e.logger);
    if !ok { return; }
    ok := buffer.AppendInt(e.level);
    if !ok { return; }
    ok := buffer.AppendString(e.ndc);
  }

  /** False where the program throws. */
  method ReadFromBuffer(buffer: SocketBuffer) returns (ok: bool, e: Event)
    requires buffer.Valid()
    modifies buffer`pos
    ensures buffer.Valid() && Decode(old(buffer.Left())) == if ok then Got(e, buffer.Left()) else Thrown
  {
    e := Event([], 0, [], map[], [], [], [], 0, 0, [], 0, []);
    var msgVersion := buffer.ReadByte();
    var sizeOfChar := buffer.ReadByte();
    var serverName, loggerName, ndc, message, thread, file, method_: Text;
    ok, serverName := buffer.ReadString(sizeOfChar);
    if !ok { return; }
    ok, loggerName := buffer.ReadString(sizeOfChar);
    if !ok { return; }
    var ll := buffer.ReadInt();
    ok, ndc := buffer.ReadString(sizeOfChar);
    if !ok { return; }
    if serverName != [] {
      if ndc == [] {
        ndc := serverName;
      } else {
        ndc := serverName + SEPARATOR + ndc;
      }
    }
    ok, message := buffer.ReadString(sizeOfChar);
    if !ok { return; }
    ok, thread := buffer.ReadString(sizeOfChar);
    if !ok { return; }
    var sec := buffer.ReadInt();
    var usec := buffer.ReadInt();
    ok, file := buffer.ReadString(sizeOfChar);
    if !ok { return; }
    var line := buffer.ReadInt();
    ok, method_ := buffer.ReadString(sizeOfChar);
    if !ok { return; }
    e := Event(loggerName, Signed(ll), ndc, map[], message, thread, [], sec, usec, file, Signed(line), method_);
  }
}
