/** What one round of pipe_read and pipe_write does between two sleeps (fs/pipe.c:16-93), on the bytes in the pipe. */
module PipeSpec {
  import opened Bytes

  const PAGE_SIZE := 4096
  const EAGAIN := 11
  const EPIPE := 32
  const ERESTARTSYS := 512

  function Min(a: nat, b: nat): nat {
    if a < b then a else b
  }

  /** The call sleeps, or returns a code and, for a read, what it read. */
  datatype Outcome = Sleeps | Returns(code: int, bytes: seq<Byte>)

  /** pipe_read from where it looks at the pipe (fs/pipe.c:20-47): what it does and what is left in the pipe. */
  function ReadRound(contents: seq<Byte>, writers: nat, count: nat, nonblock: bool, signal: bool): (Outcome,
          seq<Byte>)
  {
    if !nonblock && contents == [] then
      (if writers == 0 then Returns(0, []) else if signal then Returns(-ERESTARTSYS, []) else Sleeps, contents)
    else
      var n := Min(count, |contents|);
      (Returns(if n > 0 then n else if writers > 0 then -EAGAIN else 0, contents[..n]), contents[n..])
  }

  /** A call of pipe_write under way: `done` bytes are in the pipe, and it waits while the pipe holds `size` or more. */
  datatype Writing = Writing(data: seq<Byte>, done: nat, size: nat, nonblock: bool)

  /** fs/pipe.c:59-62. */
  function Begun(data: seq<Byte>, nonblock: bool): Writing {
    Writing(data, 0, if |data| < PAGE_SIZE then PAGE_SIZE - |data| else PAGE_SIZE - 1, nonblock)
  }

  /** How many bytes a round copies. */
  function Room(contents: seq<Byte>, left: nat): nat
    requires |contents| < PAGE_SIZE
  {
    Min(left, PAGE_SIZE - 1 - |contents|)
  }

  datatype Progress = Waits | Copies(n: nat) | Ends(code: int)

  /** pipe_write's outer loop from where it looks at the pipe (fs/pipe.c:63-92). */
  function WriteRound(contents: seq<Byte>, readers: nat, w: Writing, signal: bool): Progress
    requires |contents| < PAGE_SIZE && w.done <= |w.data|
  {
    if w.done == |w.data| then Ends(w.done)
    else if |contents| >= w.size then
      if readers == 0 then Ends(if w.done > 0 then w.done else -EPIPE)
      else if signal then Ends(if w.done > 0 then w.done else -ERESTARTSYS)
      else if w.nonblock then Ends(if w.done > 0 then w.done else -EAGAIN)
      else Waits
    else Copies(Room(contents, |w.data| - w.done))
  }
}
