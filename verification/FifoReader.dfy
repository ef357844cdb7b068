/** Messages from shell functions: `readfifo` in bb/build.py.

  Each message ends with a NUL byte; the pipe may deliver the bytes in any pieces.
 */
module FifoReader {
  import opened Wrappers
  import opened Bytes
  import opened Text

  const SPACE: Byte := 32
  const NUL: Byte := 0

  /** The logging calls that messages turn into. */
  datatype Call =
    | Plain(text: string)
    | Note(text: string)
    | VerbNote(text: string)
    | Warn(text: string)
    | Error(text: string, forceLog: bool)
    | Debug(level: int, text: string)

  function IndexOf<T(==)>(s: seq<T>, sep: T): (i: nat)
    requires sep in s
    ensures i < |s| && s[i] == sep && sep !in s[..i]
  {
    if s[0] == sep then 0 else
      var i := IndexOf(s[1..], sep);
      assert s[..i + 1] == [s[0]] + s[1..][..i];
      i + 1
  }

  /** The text before the first space, and the text after it, if there is a space. */
  function Cut<T(==)>(s: seq<T>, sep: T): (seq<T>, Option<seq<T>>) {
    if sep in s then (s[..IndexOf(s, sep)], Some(s[IndexOf(s, sep) + 1..])) else (s, None)
  }

  /** How bytes are decoded and numbers are read; `None` stands for an exception. */
  datatype Reading = Reading(decode: seq<Byte> -> Option<string>, number: string -> Option<int>)

  /** The call for a message; `None` when decoding fails or a debug message has no level or no text. */
  function Interpret(reading: Reading, message: seq<Byte>): Option<Call> {
    var (head, tail) := Cut(message, SPACE);
    match reading.decode(head)
    case None => None
    case Some(cmd) =>
      match if tail.None? then Some("") else reading.decode(tail.value)
      case None => None
      case Some(value) =>
        if cmd == "bbplain" then Some(Plain(value))
        else if cmd == "bbnote" then Some(Note(value))
        else if cmd == "bbverbnote" then Some(VerbNote(value))
        else if cmd == "bbwarn" then Some(Warn(value))
        else if cmd == "bberror" || cmd == "bbfatal" then Some(Error(value, false))
        else if cmd == "bbfatal_log" then Some(Error(value, true))
        else if cmd == "bbdebug" then
          var (level, text) := Cut(value, ' ');
          match reading.number(level)
          case None => None
          case Some(n) => if text.None? then None else Some(Debug(n, text.value))
        else Some(Warn("Unrecognised command '" + cmd + "' on FIFO"))
  }

  /** The bytes of a command and, behind one space, of its text. */
  predicate IsMessage(message: seq<Byte>, command: seq<Byte>, text: Option<seq<Byte>>) {
    && SPACE !in command
    && message == command + if text.None? then [] else [SPACE] + text.value
  }

  lemma CutIsCommand(message: seq<Byte>, command: seq<Byte>, text: Option<seq<Byte>>)
    requires IsMessage(message, command, text)
    ensures Cut(message, SPACE) == (command, text)
  {
    if text.Some? {
      CutAtFirst(command, SPACE, text.value);
      assert message == command + [SPACE] + text.value;
    } else {
      assert message == command;
    }
  }

  lemma CutAtFirst<T>(a: seq<T>, sep: T, b: seq<T>)
    requires sep !in a
    ensures Cut(a + [sep] + b, sep) == (a, Some(b))
  {
    var s := a + [sep] + b;
    assert s[|a|] == sep && forall k | 0 <= k < |a| :: s[k] == a[k] != sep;
    var i := IndexOf(s, sep);
    assert forall k | 0 <= k < i :: s[k] == s[..i][k] != sep;
    assert i == |a|;
    assert s[..|a|] == a && s[|a| + 1..] == b;
  }

  /** What is logged for a command and its text; a command that fails is logged as an error, as the caller exits
      itself. */
  lemma CommandIsCalled(reading: Reading, message: seq<Byte>, command: seq<Byte>, text: Option<seq<Byte>>, cmd: string,
                        value: string)
    requires IsMessage(message, command, text) && reading.decode(command) == Some(cmd)
    requires if text.None? then value == "" else reading.decode(text.value) == Some(value)
    ensures cmd == "bbplain" ==> Interpret(reading, message) == Some(Plain(value))
    ensures cmd == "bbnote" ==> Interpret(reading, message) == Some(Note(value))
    ensures cmd == "bbverbnote" ==> Interpret(reading, message) == Some(VerbNote(value))
    ensures cmd == "bbwarn" ==> Interpret(reading, message) == Some(Warn(value))
    ensures cmd == "bberror" || cmd == "bbfatal" ==> Interpret(reading, message) == Some(Error(value, false))
    ensures cmd == "bbfatal_log" ==> Interpret(reading, message) == Some(Error(value, true))
    ensures cmd !in {"bbplain", "bbnote", "bbverbnote", "bbwarn", "bberror", "bbfatal", "bbfatal_log", "bbdebug"} ==>
              Interpret(reading, message) == Some(Warn("Unrecognised command '" + cmd + "' on FIFO"))
  {
    CutIsCommand(message, command, text);
  }

  /** A debug message has a level and a text behind a space; without the space, or when the level is no number,
      reading it raises. */
  lemma DebugIsCalled(reading: Reading, message: seq<Byte>, command: seq<Byte>, bytes: seq<Byte>, level: string,
                      text: Option<string>)
    requires IsMessage(message, command, Some(bytes)) && reading.decode(command) == Some("bbdebug") && ' ' !in level
    requires reading.decode(bytes) == Some(level + if text.None? then "" else " " + text.value)
    ensures Interpret(reading, message) ==
            if text.None? || reading.number(level).None? then None
            else Some(Debug(reading.number(level).value, text.value))
  {
    CutIsCommand(message, command, Some(bytes));
    if text.Some? {
      CutAtFirst(level, ' ', text.value);
      assert level + (" " + text.value) == level + [' '] + text.value;
    } else {
      assert level + "" == level;
    }
  }

  /** What a complete message turns into. */
  type Interpreter = seq<Byte> -> Option<Call>

  /** What one pass over a buffer delivers, what it leaves, and whether it ended without an exception. */
  datatype Fed = Fed(calls: seq<Call>, rest: seq<Byte>, ok: bool)

  /** `parts` are the pieces of the buffer between NUL bytes; the last one is not complete.  A message that
      raises stays in the buffer, with everything after it. */
  function Deliver(interpret: Interpreter, parts: seq<seq<Byte>>): Fed
    requires parts != []
  {
    if |parts| == 1 then
      Fed([], parts[0], true)
    else
      match interpret(parts[0])
      case None => Fed([], Join(parts, NUL), false)
      case Some(call) =>
        var more := Deliver(interpret, parts[1..]);
        Fed([call] + more.calls, more.rest, more.ok)
  }

  function Feed(interpret: Interpreter, buf: seq<Byte>): Fed {
    Deliver(interpret, Split(buf, NUL))
  }

  class Fifo {
    const interpret: Interpreter
    var fifobuffer: seq<Byte>
    var delivered: seq<Call>

    constructor (reading: Reading)
      ensures (forall m :: interpret(m) == Interpret(reading, m)) && fifobuffer == [] && delivered == []
    {
      interpret := m => Interpret(reading, m);
      fifobuffer, delivered := [], [];
    }

    /** Takes in a piece of the stream; `ok` is false when a message raised an exception. */
    method ReadFifo(data: seq<Byte>) returns (ok: bool)
      modifies this
      ensures var fed := Feed(interpret, old(fifobuffer) + data);
              fifobuffer == fed.rest && delivered == old(delivered) + fed.calls && ok == fed.ok
    {
      fifobuffer := fifobuffer + data;
      ghost var all := Split(fifobuffer, NUL);
      ghost var left := all;
      ghost var done: seq<Call> := [];
      while fifobuffer != []
        invariant left == Split(fifobuffer, NUL) && delivered == old(delivered) + done
        invariant Resumes(interpret, all, done, left)
        decreases |fifobuffer|
      {
        if NUL in fifobuffer {
          var i := IndexOf(fifobuffer, NUL);
          var message, nextmsg := fifobuffer[..i], fifobuffer[i + 1..];
          FirstPart(fifobuffer, i);
          var call := interpret(message);
          if call.None? {
            JoinSplit(fifobuffer, NUL);
            ResumesStop(interpret, all, done, left);
            return false;
          }
          ResumesStep(interpret, all, done, left);
          delivered := delivered + [call.value];
          done := done + [call.value];
          fifobuffer := nextmsg;
          left := left[1..];
        } else {
          break;
        }
      }
      ResumesStop(interpret, all, done, left);
      ok := true;
    }
  }

  /** The pass over `all` is the calls already made followed by the pass over `left`. */
  ghost predicate Resumes(interpret: Interpreter, all: seq<seq<Byte>>, done: seq<Call>, left: seq<seq<Byte>>) {
    all != [] && left != [] &&
    var (whole, rest) := (Deliver(interpret, all), Deliver(interpret, left));
    whole.calls == done + rest.calls && whole.rest == rest.rest && whole.ok == rest.ok
  }

  lemma ResumesStep(interpret: Interpreter, all: seq<seq<Byte>>, done: seq<Call>, left: seq<seq<Byte>>)
    requires Resumes(interpret, all, done, left) && |left| > 1 && interpret(left[0]).Some?
    ensures Resumes(interpret, all, done + [interpret(left[0]).value], left[1..])
  {
    var call := interpret(left[0]).value;
    var rest := Deliver(interpret, left[1..]);
    assert done + ([call] + rest.calls) == done + [call] + rest.calls;
  }

  lemma ResumesStop(interpret: Interpreter, all: seq<seq<Byte>>, done: seq<Call>, left: seq<seq<Byte>>)
    requires Resumes(interpret, all, done, left) && (|left| == 1 || interpret(left[0]).None?)
    ensures Deliver(interpret, all) == Fed(done, Join(left, NUL), |left| == 1)
  {
    assert done + [] == done;
  }

  lemma FirstPart(buf: seq<Byte>, i: nat)
    requires i < |buf| && buf[i] == NUL && NUL !in buf[..i]
    ensures |Split(buf, NUL)| > 1 && Split(buf, NUL)[0] == buf[..i] && Split(buf, NUL)[1..] == Split(buf[i + 1..], NUL)
  {
    assert buf == buf[..i] + [NUL] + buf[i + 1..];
    SplitAppend(buf[..i], NUL, buf[i + 1..]);
  }

  /** More bytes go on where the last, incomplete part ends. */
  lemma SplitMore(a: seq<Byte>, b: seq<Byte>)
    ensures var p := Split(a, NUL); Split(a + b, NUL) == p[..|p| - 1] + Split(Last(p) + b, NUL)
  {
    var p := Split(a, NUL);
    var n := |p| - 1;
    JoinSplit(a, NUL);
    if n == 0 {
      assert p[..0] + Split(Last(p) + b, NUL) == Split(Last(p) + b, NUL);
    } else {
      var front := Join(p[..n], NUL);
      assert p == p[..n] + [p[n]];
      JoinAppend(p[..n], [p[n]], NUL);
      assert a + b == front + [NUL] + (p[n] + b);
      SplitAppend(front, NUL, p[n] + b);
      SplitOfJoin(p[..n], NUL);
    }
  }

  lemma {:induction false} DeliverAppend(interpret: Interpreter, p: seq<seq<Byte>>, q: seq<seq<Byte>>, b: seq<Byte>)
    requires p != [] && q != [] && Join(q, NUL) == Last(p) + b
    ensures var first := Deliver(interpret, p);
            var both := Deliver(interpret, p[..|p| - 1] + q);
            if first.ok then
              && first.rest == Last(p)
              && both.calls == first.calls + Deliver(interpret, q).calls
              && both.rest == Deliver(interpret, q).rest && both.ok == Deliver(interpret, q).ok
            else
              both.calls == first.calls && !both.ok && both.rest == first.rest + b
  {
    if |p| == 1 {
      assert p[..0] + q == q;
    } else {
      assert (p[..|p| - 1] + q)[1..] == p[1..][..|p| - 2] + q;
      DeliverAppend(interpret, p[1..], q, b);
      JoinMore(p, q, b);
    }
  }

  /** Bytes that come after the last part come after the whole. */
  lemma {:induction false} JoinMore(p: seq<seq<Byte>>, q: seq<seq<Byte>>, b: seq<Byte>)
    requires p != [] && q != [] && Join(q, NUL) == Last(p) + b
    ensures Join(p[..|p| - 1] + q, NUL) == Join(p, NUL) + b
  {
    if |p| == 1 {
      assert p[..0] + q == q;
    } else {
      assert (p[..|p| - 1] + q)[1..] == p[1..][..|p| - 2] + q;
      JoinMore(p[1..], q, b);
    }
  }

  function Concat(chunks: seq<seq<Byte>>): seq<Byte> {
    if chunks == [] then [] else chunks[0] + Concat(chunks[1..])
  }

  /** Reading the pieces in turn until one raises. */
  function FeedChunks(interpret: Interpreter, buf: seq<Byte>, chunks: seq<seq<Byte>>): Fed
    decreases |chunks|
  {
    if chunks == [] then Fed([], buf, true) else
      var first := Feed(interpret, buf + chunks[0]);
      if !first.ok then first else
        var more := FeedChunks(interpret, first.rest, chunks[1..]);
        Fed(first.calls + more.calls, more.rest, more.ok)
  }

  /** How many of the pieces are read: all, or those up to the one at whose end a message has raised. */
  function Taken(interpret: Interpreter, buf: seq<Byte>, chunks: seq<seq<Byte>>): (n: nat)
    ensures n <= |chunks|
    ensures FeedChunks(interpret, buf, chunks).ok ==> n == |chunks|
    decreases |chunks|
  {
    if chunks == [] then 0 else
      var first := Feed(interpret, buf + chunks[0]);
      if !first.ok then 1 else 1 + Taken(interpret, first.rest, chunks[1..])
  }

  /** Framing does not depend on where the stream is cut: the same calls are delivered, up to the first
      message that raises, and the same bytes are left, of which those of the pieces that were not read are not yet
      in the buffer. */
  lemma {:induction false} ChunkingIsIrrelevant(interpret: Interpreter, buf: seq<Byte>, chunks: seq<seq<Byte>>)
    requires NUL !in buf
    ensures var whole := Feed(interpret, buf + Concat(chunks)); var pieces := FeedChunks(interpret, buf, chunks);
            && whole.calls == pieces.calls && whole.ok == pieces.ok
            && whole.rest == pieces.rest + Concat(chunks[Taken(interpret, buf, chunks)..])
            && (whole.ok ==> whole.rest == pieces.rest)
    decreases |chunks|
  {
    if chunks == [] {
      assert buf + [] == buf;
    } else {
      var a, b := buf + chunks[0], Concat(chunks[1..]);
      var p := Split(a, NUL);
      assert buf + Concat(chunks) == a + b;
      SplitMore(a, b);
      JoinSplit(Last(p) + b, NUL);
      DeliverAppend(interpret, p, Split(Last(p) + b, NUL), b);
      if Feed(interpret, a).ok {
        ChunkingIsIrrelevant(interpret, Last(p), chunks[1..]);
      }
    }
  }

  /** Each message ends with a NUL byte. */
  function Encode(messages: seq<seq<Byte>>): seq<Byte> {
    if messages == [] then [] else messages[0] + [NUL] + Encode(messages[1..])
  }

  lemma {:induction false} EncodeIsJoin(messages: seq<seq<Byte>>, tail: seq<Byte>)
    ensures Encode(messages) + tail == Join(messages + [tail], NUL)
  {
    if messages == [] {
      assert [] + [tail] == [tail];
    } else {
      EncodeIsJoin(messages[1..], tail);
      assert (messages + [tail])[1..] == messages[1..] + [tail];
      assert Encode(messages) + tail == messages[0] + [NUL] + (Encode(messages[1..]) + tail);
    }
  }

  lemma {:induction false} DeliverAll(interpret: Interpreter, parts: seq<seq<Byte>>)
    requires parts != []
    ensures var fed := Deliver(interpret, parts); var n := |parts| - 1;
            && (fed.ok <==> forall i | 0 <= i < n :: interpret(parts[i]).Some?)
            && (fed.ok ==>
                fed.rest == parts[n] && |fed.calls| == n &&
                forall i | 0 <= i < n :: interpret(parts[i]) == Some(fed.calls[i]))
  {
    if |parts| > 1 {
      DeliverAll(interpret, parts[1..]);
      var more := Deliver(interpret, parts[1..]);
      assert forall i | 1 <= i < |parts| :: parts[i] == parts[1..][i - 1];
    }
  }

  /** Any messages followed by an incomplete one: they are delivered in order exactly when all of them are
      well-formed, and then exactly the bytes after the last NUL are left. */
  lemma FeedOfEncode(interpret: Interpreter, messages: seq<seq<Byte>>, tail: seq<Byte>)
    requires (forall m | m in messages :: NUL !in m) && NUL !in tail
    ensures var fed := Feed(interpret, Encode(messages) + tail);
            && (fed.ok <==> forall i | 0 <= i < |messages| :: interpret(messages[i]).Some?)
            && (fed.ok ==> fed.rest == tail && |fed.calls| == |messages| &&
                           forall i | 0 <= i < |messages| :: interpret(messages[i]) == Some(fed.calls[i]))
  {
    var parts := messages + [tail];
    EncodeIsJoin(messages, tail);
    SplitOfJoin(parts, NUL);
    DeliverAll(interpret, parts);
    assert forall i | 0 <= i < |messages| :: parts[i] == messages[i];
  }

  /** The first message that raises stays in the buffer, with all that comes after it; those before it are delivered. */
  lemma {:induction false} FeedStopsAt(interpret: Interpreter, messages: seq<seq<Byte>>, tail: seq<Byte>, i: nat)
    requires (forall m | m in messages :: NUL !in m) && NUL !in tail
    requires i < |messages| && interpret(messages[i]).None? && forall k | 0 <= k < i :: interpret(messages[k]).Some?
    ensures var fed := Feed(interpret, Encode(messages) + tail);
            && !fed.ok && fed.rest == Encode(messages[i..]) + tail
            && |fed.calls| == i && forall k | 0 <= k < i :: interpret(messages[k]) == Some(fed.calls[k])
  {
    var parts := messages + [tail];
    EncodeIsJoin(messages, tail);
    SplitOfJoin(parts, NUL);
    DeliverStopsAt(interpret, parts, i);
    EncodeIsJoin(messages[i..], tail);
    assert parts[i..] == messages[i..] + [tail];
    assert forall k | 0 <= k <= i :: parts[k] == messages[k];
  }

  lemma {:induction false} DeliverStopsAt(interpret: Interpreter, parts: seq<seq<Byte>>, i: nat)
    requires i < |parts| - 1 && interpret(parts[i]).None? && forall k | 0 <= k < i :: interpret(parts[k]).Some?
    ensures var fed := Deliver(interpret, parts);
            && !fed.ok && fed.rest == Join(parts[i..], NUL)
            && |fed.calls| == i && forall k | 0 <= k < i :: interpret(parts[k]) == Some(fed.calls[k])
    decreases i
  {
    if i > 0 {
      assert forall k | 0 <= k < |parts| - 1 :: parts[1..][k] == parts[k + 1];
      DeliverStopsAt(interpret, parts[1..], i - 1);
      assert parts[1..][i - 1..] == parts[i..];
    } else {
      assert parts[0..] == parts;
    }
  }

  /** Every buffer is such a list of messages with an incomplete one at its end. */
  lemma BufferIsEncoded(buf: seq<Byte>)
    ensures var p := Split(buf, NUL); var n := |p| - 1;
            buf == Encode(p[..n]) + p[n] && NUL !in p[n] && forall m | m in p[..n] :: NUL !in m
  {
    var p := Split(buf, NUL);
    var n := |p| - 1;
    JoinSplit(buf, NUL);
    EncodeIsJoin(p[..n], p[n]);
    assert p == p[..n] + [p[n]];
  }
}
