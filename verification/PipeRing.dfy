/** The ring a pipe's bytes are kept in (fs/pipe.c:29-41, 63-91): one page, with a head and a tail. */
module PipeRing {
  import opened Bytes
  import opened PipeSpec

  /** PIPE_SIZE. */
  function Size(head: nat, tail: nat): nat
    requires head < PAGE_SIZE && tail < PAGE_SIZE
  {
    if head >= tail then head - tail else head + PAGE_SIZE - tail
  }

  /** As the code computes it: (head - tail) & (PAGE_SIZE - 1). */
  function PipeSize(head: nat, tail: nat): (n: nat)
    requires head < PAGE_SIZE && tail < PAGE_SIZE
    ensures n == Size(head, tail) < PAGE_SIZE
  {
    (head - tail) % PAGE_SIZE
  }

  /** A place in the ring, i places after `at`. */
  function Place(at: nat, i: nat): nat
    requires at < PAGE_SIZE && i < PAGE_SIZE
  {
    if at + i < PAGE_SIZE then at + i else at + i - PAGE_SIZE
  }

  /** As the code computes it: (at + n) & (PAGE_SIZE - 1). */
  function Advance(at: nat, n: nat): (r: nat)
    requires at < PAGE_SIZE && n < PAGE_SIZE
    ensures r == Place(at, n) < PAGE_SIZE
  {
    (at + n) % PAGE_SIZE
  }

  /** The bytes from the tail to the head. */
  ghost function Held(page: seq<Byte>, head: nat, tail: nat): (s: seq<Byte>)
    requires |page| == PAGE_SIZE && head < PAGE_SIZE && tail < PAGE_SIZE
    ensures |s| == Size(head, tail)
  {
    seq(Size(head, tail), i requires 0 <= i < Size(head, tail) => page[Place(tail, i)])
  }

  /** Taking n bytes from one stretch of the page. */
  lemma TakeOut(page: seq<Byte>, head: nat, tail: nat, n: nat)
    requires |page| == PAGE_SIZE && head < PAGE_SIZE && tail < PAGE_SIZE && n <= Size(head, tail)
      && tail + n <= PAGE_SIZE
    ensures n < PAGE_SIZE && page[tail..tail + n] == Held(page, head, tail)[..n]
    ensures Held(page, head, Place(tail, n)) == Held(page, head, tail)[n..]
  {
    assert forall i :: 0 <= i < Size(head, tail) - n ==> Place(Place(tail, n), i) == Place(tail, i + n);
  }

  /** Putting bytes at the head, in one stretch of the page. */
  lemma PutIn(page: seq<Byte>, page': seq<Byte>, head: nat, tail: nat, b: seq<Byte>)
    requires |page| == |page'| == PAGE_SIZE && head < PAGE_SIZE && tail < PAGE_SIZE
    requires |b| < PAGE_SIZE - Size(head, tail) && head + |b| <= PAGE_SIZE
    requires page' == page[..head] + b + page[head + |b|..]
    ensures |b| < PAGE_SIZE && Held(page', Place(head, |b|), tail) == Held(page, head, tail) + b
  {
    var size, n := Size(head, tail), |b|;
    assert Size(Place(head, n), tail) == size + n;
    var s := Held(page', Place(head, n), tail);
    forall i | 0 <= i < size + n
      ensures s[i] == (Held(page, head, tail) + b)[i]
    {
      if i >= size {
        assert Place(tail, i) == head + (i - size);
      }
    }
  }

  class Pipe {
    const base: array<Byte>
    var head: nat
    var tail: nat
    var readers: nat
    var writers: nat

    ghost predicate Valid()
      reads this, base
    {
      base.Length == PAGE_SIZE && head < PAGE_SIZE && tail < PAGE_SIZE
    }

    ghost function Contents(): (s: seq<Byte>)
      requires Valid()
      reads this, base
      ensures |s| < PAGE_SIZE
    {
      Held(base[..], head, tail)
    }

    constructor ()
      ensures Valid() && Contents() == [] && readers == 1 && writers == 1 && fresh(base)
    {
      base := new Byte[PAGE_SIZE];
      head, tail, readers, writers := 0, 0, 1, 1;
    }

    /** The copy loop of pipe_read (fs/pipe.c:29-41). */
    method CopyOut(count: nat) returns (bytes: seq<Byte>)
      requires Valid()
      modifies this`tail
      ensures Valid()
      ensures bytes == old(Contents())[..Min(count, |old(Contents())|)]
      ensures Contents() == old(Contents())[Min(count, |old(Contents())|)..]
    {
      hide Held, Size, Place, PipeSize, Advance;
      bytes := [];
      ghost var all := Contents();
      while |bytes| < count && PipeSize(head, tail) != 0
        invariant Valid() && |bytes| <= |all| && |bytes| <= count
        invariant bytes == all[..|bytes|] && Contents() == all[|bytes|..]
        decreases count - |bytes|
      {
        var b := TakeSome(count - |bytes|);
        Pieces(all, |bytes|, |b|);
        bytes := bytes + b;
      }
      assert |bytes| == Min(count, |all|);
    }

    /** One memcpy of that loop, up to the end of the page. */
    method TakeSome(count: nat) returns (b: seq<Byte>)
      requires Valid() && count > 0 && Contents() != []
      modifies this`tail
      ensures Valid() && 0 < |b| <= count && |b| <= |old(Contents())|
      ensures b == old(Contents())[..|b|] && Contents() == old(Contents())[|b|..]
    {
      hide Held, Place, PipeSize, Advance;
      var size := PipeSize(head, tail);
      var chars := PAGE_SIZE - tail;
      if chars > count {
        chars := count;
      }
      if chars > size {
        chars := size;
      }
      TakeOut(base[..], head, tail, chars);
      b := base[tail..tail + chars];
      assert b == base[..][tail..tail + chars];
      tail := Advance(tail, chars);
    }

    /** The inner copy loop of pipe_write (fs/pipe.c:76-88): as much as there is room for. */
    method CopyIn(buf: seq<Byte>) returns (n: nat)
      requires Valid()
      modifies this`head, base
      ensures Valid() && n == Room(old(Contents()), |buf|)
      ensures Contents() == old(Contents()) + buf[..n]
    {
      hide Held, Size, Place, PipeSize, Advance;
      n := 0;
      ghost var was := Contents();
      while n < |buf| && PAGE_SIZE - 1 - PipeSize(head, tail) != 0
        invariant Valid() && n <= |buf| && Contents() == was + buf[..n]
        decreases |buf| - n
      {
        n := CopySome(buf, n, was);
      }
    }

    /** One memcpy of that loop, up to the end of the page. */
    method CopySome(buf: seq<Byte>, done: nat, ghost was: seq<Byte>) returns (n: nat)
      requires Valid() && done < |buf| && |Contents()| < PAGE_SIZE - 1 && Contents() == was + buf[..done]
      modifies this`head, base
      ensures Valid() && done < n <= |buf| && Contents() == was + buf[..n]
    {
      hide Held, Place, PipeSize, Advance;
      var size := PAGE_SIZE - 1 - PipeSize(head, tail);
      var chars := PAGE_SIZE - head;
      if chars > |buf| - done {
        chars := |buf| - done;
      }
      if chars > size {
        chars := size;
      }
      assert 0 < chars <= PAGE_SIZE - head && chars <= |buf| - done && chars < PAGE_SIZE - Size(head, tail);
      hide Size;
      ghost var page := base[..];
      var b := buf[done..done + chars];
      PutBytes(b);
      PutIn(page, base[..], head, tail, b);
      head := Advance(head, chars);
      n := done + chars;
      Longer(was, buf, done, n);
    }

    /** memcpy_fromfs to the head. */
    method PutBytes(b: seq<Byte>)
      requires Valid() && head + |b| <= PAGE_SIZE
      modifies base
      ensures base[..] == old(base[..])[..head] + b + old(base[..])[head + |b|..]
    {
      ghost var page := base[..];
      var i := 0;
      while i < |b|
        invariant i <= |b|
        invariant forall j :: 0 <= j < PAGE_SIZE ==> base[j] == if head <= j < head + i then b[j - head] else page[j]
      {
        base[head + i] := b[i];
        i := i + 1;
      }
    }

    /** pipe_read (fs/pipe.c:16-48) from where it looks at the pipe, up to its return or its sleep. */
    method Read(count: nat, nonblock: bool, signal: bool) returns (out: Outcome)
      requires Valid()
      modifies this`tail
      ensures Valid() && out == ReadRound(old(Contents()), writers, count, nonblock, signal).0
      ensures Contents() == ReadRound(old(Contents()), writers, count, nonblock, signal).1
    {
      hide Held, Size, Place, PipeSize, Advance;
      if !nonblock && PipeSize(head, tail) == 0 {
        if writers == 0 {
          return Returns(0, []);
        }
        if signal {
          return Returns(-ERESTARTSYS, []);
        }
        return Sleeps;
      }
      ghost var n := Min(count, |Contents()|);
      var bytes := CopyOut(count);
      assert |bytes| == n;
      if |bytes| > 0 {
        return Returns(|bytes|, bytes);
      }
      return Returns(if writers > 0 then -EAGAIN else 0, bytes);
    }

    /** One round of pipe_write (fs/pipe.c:63-91); the call's own state is w. */
    method Write(w: Writing, signal: bool) returns (p: Progress)
      requires Valid() && w.done <= |w.data|
      modifies this`head, base
      ensures Valid() && p == WriteRound(old(Contents()), readers, w, signal)
      ensures Contents() == old(Contents()) + if p.Copies? then w.data[w.done..][..p.n] else []
    {
      hide Held, Size, Place, PipeSize, Advance;
      if w.done == |w.data| {
        return Ends(w.done);
      }
      if PipeSize(head, tail) >= w.size {
        if readers == 0 {
          return Ends(if w.done > 0 then w.done else -EPIPE);
        }
        if signal {
          return Ends(if w.done > 0 then w.done else -ERESTARTSYS);
        }
        if w.nonblock {
          return Ends(if w.done > 0 then w.done else -EAGAIN);
        }
        return Waits;
      }
      var n := CopyIn(w.data[w.done..]);
      return Copies(n);
    }

    /** pipe_read_release, pipe_write_release, pipe_rdwr_release (fs/pipe.c:197-218). */
    method Release(reading: bool, writing: bool)
      requires Valid() && (reading ==> readers > 0) && (writing ==> writers > 0)
      modifies this`readers, this`writers
      ensures readers == old(readers) - (if reading then 1 else 0)
        && writers == old(writers) - (if writing then 1 else 0)
      ensures Valid() && Contents() == old(Contents())
    {
      if reading {
        readers := readers - 1;
      }
      if writing {
        writers := writers - 1;
      }
    }
  }

  lemma Longer(was: seq<Byte>, buf: seq<Byte>, done: nat, n: nat)
    requires done <= n <= |buf|
    ensures was + buf[..done] + buf[done..n] == was + buf[..n]
  {
  }

  lemma Pieces(all: seq<Byte>, k: nat, n: nat)
    requires k + n <= |all|
    ensures all[..k] + all[k..][..n] == all[..k + n] && all[k..][n..] == all[k + n..]
  {
  }
}
