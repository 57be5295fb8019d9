/**
 * Line framing of commands read from standard input (command_stdin_poll):
 * bytes are appended to a fixed buffer, everything up to the last newline
 * is handed on as one message, and the bytes after it move to the front.
 */
module StdinFraming {
  import opened Wrappers
  import opened CStrings

  /** CMD_BUF_SIZE */
  const CmdBufSize: nat := 4096

  /** The message a poll hands on, if any, and the bytes left pending. */
  datatype Framed = Framed(message: Option<string>, rest: string)

  /**
   * One poll over the pending bytes and the bytes just read.  The newline is
   * looked for in the C string of the buffer, so it stops at a NUL; with no
   * newline, a buffer with no room left for the next read is dropped.
   */
  function Frame(pending: string, input: string): Framed
  {
    if input == [] then Framed(None, pending)
    else
      var text := pending + input;
      match LastIndexOf(CStr(text), '\n')
      case None => if |text| + 1 >= CmdBufSize then Framed(None, []) else Framed(None, text)
      case Some(k) => Framed(Some(text[..k]), text[k + 1..])
  }

  /**
   * With a newline: the message, a newline and the remaining bytes make up
   * the buffer (the message may hold earlier newlines, which separate
   * commands); the remainder has no newline before its terminator, and the
   * pending length drops by the length of the message and its newline.
   */
  lemma FrameSplitsAtLastNewline(pending: string, input: string)
    requires input != []
    ensures var f := Frame(pending, input);
      var text := pending + input;
      (f.message.Some? <==> '\n' in CStr(text))
      && (f.message.Some? ==>
            text == f.message.value + "\n" + f.rest
            && '\0' !in f.message.value
            && '\n' !in CStr(f.rest)
            && |f.rest| == |text| - (|f.message.value| + 1))
  {
    var text := pending + input;
    var c := CStr(text);
    match LastIndexOf(c, '\n')
    case None =>
    case Some(k) =>
      assert text == text[..k] + "\n" + text[k + 1..];
      assert text[..k] == c[..k];
      var s, r := text[k + 1..], c[k + 1..];
      assert r == s[..|r|];
      assert |r| < |s| ==> s[|r|] == text[|c|];
      CStrUnique(s, r);
  }

  /** Without a newline, a full buffer is flushed and any other is kept whole. */
  lemma FrameWithoutNewline(pending: string, input: string)
    requires input != [] && '\n' !in CStr(pending + input)
    ensures Frame(pending, input).message == None
    ensures |pending| + |input| + 1 >= CmdBufSize ==> Frame(pending, input).rest == []
    ensures |pending| + |input| + 1 < CmdBufSize ==> Frame(pending, input).rest == pending + input
  {
  }

  /** After a poll that read something, the next read has room for at least one byte. */
  lemma FrameLeavesRoom(pending: string, input: string)
    requires input != [] && |pending| + |input| < CmdBufSize
    ensures |Frame(pending, input).rest| + 1 < CmdBufSize
  {
  }

  /** command_stdin_t */
  class StdinReader {
    const buf: array<char>
    var ptr: nat

    ghost predicate Valid()
      reads this
    {
      buf.Length == CmdBufSize && ptr < CmdBufSize
    }

    /** The bytes received and not yet framed. */
    function Pending(): string
      reads this, buf
      requires Valid()
    {
      buf[..ptr]
    }

    /** command_stdin_new: a zeroed buffer, nothing pending. */
    constructor ()
      ensures Valid() && fresh(buf) && Pending() == []
    {
      buf := new char[CmdBufSize](_ => '\0');
      ptr := 0;
    }

    /** Copies the bytes read behind the pending ones and terminates the buffer. */
    method Append(input: string)
      requires Valid() && ptr + |input| < CmdBufSize
      modifies this, buf
      ensures Valid() && ptr == old(ptr) + |input|
      ensures buf[..ptr] == old(buf[..ptr]) + input && buf[ptr] == '\0'
    {
      ghost var text := buf[..ptr] + input;
      var start := ptr;
      var j := 0;
      while j < |input|
        invariant 0 <= j <= |input| && ptr == start
        invariant buf[..start + j] == text[..start + j]
      {
        buf[start + j] := input[j];
        j := j + 1;
      }
      ptr := start + |input|;
      assert buf[..ptr] == text;
      buf[ptr] := '\0';
      assert buf[..ptr] == text;
    }

    /** memmove of the bytes after the first `count` to the front of the buffer. */
    method DropFront(count: nat)
      requires Valid() && count <= ptr
      modifies this, buf
      ensures Valid() && ptr == old(ptr) - count
      ensures buf[..ptr] == old(buf[count..ptr])
    {
      ghost var snap := buf[..];
      var i := 0;
      while i < ptr - count
        invariant ptr == old(ptr) && 0 <= i <= ptr - count
        invariant forall j :: 0 <= j < i ==> buf[j] == snap[count + j]
        invariant forall j :: i <= j < buf.Length ==> buf[j] == snap[j]
      {
        buf[i] := buf[count + i];
        i := i + 1;
      }
      ptr := ptr - count;
      assert buf[..ptr] == snap[count..count + ptr];
    }

    /**
     * command_stdin_poll, given the bytes `input` the read returned (at most
     * the free room less one): returns the message handed to the command
     * parser, if any.
     */
    method Poll(input: string) returns (message: Option<string>)
      requires Valid()
      requires |input| <= CmdBufSize - ptr - 1
      modifies this, buf
      ensures Valid()
      ensures Framed(message, Pending()) == Frame(old(Pending()), input)
    {
      if input == [] {
        return None;
      }
      ghost var pending := buf[..ptr];
      Append(input);
      ghost var text := buf[..ptr];
      assert text == pending + input;
      var lastNewline := LastIndexOf(CStr(buf[..ptr]), '\n');
      match lastNewline {
        case None =>
          if ptr + 1 >= CmdBufSize {
            ptr := 0;
            buf[0] := '\0';
          }
          message := None;
        case Some(k) =>
          buf[k] := '\0';
          assert buf[..k] == text[..k] && buf[k + 1..ptr] == text[k + 1..];
          message := Some(buf[..k]);
          DropFront(k + 1);
      }
    }
  }
}
