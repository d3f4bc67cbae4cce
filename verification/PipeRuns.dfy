/** Any number of readers and writers on one pipe, in any order of their rounds (fs/pipe.c:16-93). */
module PipeRuns {
  import opened Bytes
  import opened PipeSpec

  /** A call of pipe_read or pipe_write, under way or over. */
  datatype Call =
    | Reader(count: nat, nonblock: bool)
    | Writer(w: Writing)
    | ReadDone(code: int, bytes: seq<Byte>)
    | WriteDone(data: seq<Byte>, code: int)

  /** Bytes that a call put into the pipe, or took out of it, in one round. */
  datatype Chunk = Chunk(from: nat, bytes: seq<Byte>)

  /** The pipe, its calls, and what was put in and taken out since it was made, in that order. */
  datatype Pipe = Pipe(contents: seq<Byte>, readers: nat, writers: nat, calls: map<nat, Call>, sent: seq<Chunk>,
    taken: seq<Chunk>)

  datatype Event =
    | StartRead(id: nat, count: nat, nonblock: bool)
    | StartWrite(id: nat, data: seq<Byte>, nonblock: bool)
    | Go(id: nat, signal: bool)
    | Change(readers: nat, writers: nat)

  /** Each call is made once. */
  predicate Legal(p: Pipe, e: Event) {
    match e
    case StartRead(id, _, _) => id !in p.calls
    case StartWrite(id, _, _) => id !in p.calls
    case Go(id, _) => id in p.calls
    case Change(_, _) => true
  }

  /** Rounds of calls, new calls, and changes in the number of open ends. */
  function Step(p: Pipe, e: Event): Pipe
    requires Legal(p, e) && |p.contents| < PAGE_SIZE && forall i :: i in p.calls ==> Sane(p.calls[i])
  {
    match e
    case StartRead(id, count, nonblock) => p.(calls := p.calls[id := Reader(count, nonblock)])
    case StartWrite(id, data, nonblock) =>
      p.(calls := p.calls[id := if p.readers == 0 then WriteDone(data, -EPIPE) else Writer(Begun(data, nonblock))])
    case Change(readers, writers) => p.(readers := readers, writers := writers)
    case Go(id, signal) =>
      match p.calls[id]
      case Reader(_, _) => ReadStep(p, id, signal)
      case Writer(_) => WriteStep(p, id, signal)
      case _ => p
  }

  predicate Sane(c: Call) {
    c.Writer? ==> c.w.done <= |c.w.data|
  }

  function ReadStep(p: Pipe, id: nat, signal: bool): Pipe
    requires id in p.calls && p.calls[id].Reader?
  {
    var c := p.calls[id];
    var r := ReadRound(p.contents, p.writers, c.count, c.nonblock, signal);
    match r.0
    case Sleeps => p
    case Returns(code, bytes) =>
      p.(contents := r.1, calls := p.calls[id := ReadDone(code, bytes)], taken := p.taken + [Chunk(id, bytes)])
  }

  function WriteStep(p: Pipe, id: nat, signal: bool): Pipe
    requires id in p.calls && p.calls[id].Writer? && Sane(p.calls[id]) && |p.contents| < PAGE_SIZE
  {
    var w := p.calls[id].w;
    match WriteRound(p.contents, p.readers, w, signal)
    case Waits => p
    case Ends(code) => p.(calls := p.calls[id := WriteDone(w.data, code)])
    case Copies(n) => Copied(p, id, w, n)
  }

  function Copied(p: Pipe, id: nat, w: Writing, n: nat): Pipe
    requires w.done + n <= |w.data|
  {
    var bytes := w.data[w.done..][..n];
    p.(contents := p.contents + bytes,
       calls := p.calls[id := Writer(w.(done := w.done + n, size := PAGE_SIZE - 1))],
       sent := p.sent + [Chunk(id, bytes)])
  }

  // ---- what was sent

  function Stream(sent: seq<Chunk>): seq<Byte> {
    if sent == [] then [] else Stream(sent[..|sent| - 1]) + sent[|sent| - 1].bytes
  }

  /** The chunks of one call. */
  function By(sent: seq<Chunk>, id: nat): seq<Chunk> {
    if sent == [] then []
    else By(sent[..|sent| - 1], id) + if sent[|sent| - 1].from == id then [sent[|sent| - 1]] else []
  }

  lemma OneMore(sent: seq<Chunk>, c: Chunk, id: nat)
    ensures Stream(sent + [c]) == Stream(sent) + c.bytes
    ensures c.from == id ==> By(sent + [c], id) == By(sent, id) + [c]
    ensures c.from != id ==> By(sent + [c], id) == By(sent, id)
  {
    assert (sent + [c])[..|sent|] == sent;
  }

  /** The first n bytes of the data went in, in order; all at once or not at all if the data is shorter than a page. */
  ghost predicate Put(chunks: seq<Chunk>, id: nat, data: seq<Byte>, n: nat) {
    && n <= |data| && Stream(chunks) == data[..n]
    && (|data| < PAGE_SIZE ==> (n == 0 && chunks == []) || (n == |data| && chunks == [Chunk(id, data)]))
  }

  ghost predicate CallOK(sent: seq<Chunk>, id: nat, c: Call) {
    match c
    case Reader(_, _) => By(sent, id) == []
    case ReadDone(code, bytes) => By(sent, id) == [] && (code > 0 ==> code == |bytes|) && (code <= 0 ==> bytes == [])
    case Writer(w) =>
      && Put(By(sent, id), id, w.data, w.done) && w.size < PAGE_SIZE + 1
      && (|w.data| < PAGE_SIZE && w.done < |w.data| ==> w.size == PAGE_SIZE - |w.data|)
      && (|w.data| >= PAGE_SIZE ==> w.size == PAGE_SIZE - 1)
    case WriteDone(data, code) => Put(By(sent, id), id, data, if code > 0 then code else 0)
  }

  ghost predicate Calls(sent: seq<Chunk>, calls: map<nat, Call>) {
    && (forall i :: i in calls ==> CallOK(sent, i, calls[i]))
    && forall i: nat :: i !in calls ==> By(sent, i) == []
  }

  /** Each read that is over took its bytes out in one piece, and nobody else took anything. */
  ghost predicate Reads(taken: seq<Chunk>, calls: map<nat, Call>) {
    forall i: nat :: By(taken, i) == if i in calls && calls[i].ReadDone? then [Chunk(i, calls[i].bytes)] else []
  }

  lemma ReadsReplace(taken: seq<Chunk>, calls: map<nat, Call>, id: nat, c: Call)
    requires Reads(taken, calls) && !c.ReadDone? && (id in calls ==> !calls[id].ReadDone?)
    ensures Reads(taken, calls[id := c])
  {
    hide By;
  }

  lemma ReadsDone(taken: seq<Chunk>, calls: map<nat, Call>, id: nat, code: int, bytes: seq<Byte>)
    requires Reads(taken, calls) && id in calls && !calls[id].ReadDone?
    ensures Reads(taken + [Chunk(id, bytes)], calls[id := ReadDone(code, bytes)])
  {
    forall i: nat
      ensures By(taken + [Chunk(id, bytes)], i) == By(taken, i) + if i == id then [Chunk(id, bytes)] else []
    {
      OneMore(taken, Chunk(id, bytes), i);
    }
    hide By;
  }

  /** What came out and what is still in the pipe is what went in; the pipe is never full to the last byte. */
  ghost predicate Inv(p: Pipe) {
    && Calls(p.sent, p.calls) && Reads(p.taken, p.calls)
    && |p.contents| < PAGE_SIZE
    && Stream(p.sent) == Stream(p.taken) + p.contents
  }

  lemma InvSane(p: Pipe)
    requires Inv(p)
    ensures forall i :: i in p.calls ==> Sane(p.calls[i])
  {
    forall i | i in p.calls
      ensures Sane(p.calls[i])
    {
      assert CallOK(p.sent, i, p.calls[i]);
    }
  }

  lemma CallsReplace(sent: seq<Chunk>, calls: map<nat, Call>, id: nat, c: Call)
    requires Calls(sent, calls) && CallOK(sent, id, c)
    ensures Calls(sent, calls[id := c])
  {
  }

  lemma CallsSend(sent: seq<Chunk>, calls: map<nat, Call>, id: nat, bytes: seq<Byte>, c: Call)
    requires Calls(sent, calls) && id in calls && CallOK(sent + [Chunk(id, bytes)], id, c)
    ensures Calls(sent + [Chunk(id, bytes)], calls[id := c])
  {
    hide Put;
    var sent', calls' := sent + [Chunk(id, bytes)], calls[id := c];
    forall i | i in calls'
      ensures CallOK(sent', i, calls'[i])
    {
      if i != id {
        OneMore(sent, Chunk(id, bytes), i);
        assert CallOK(sent, i, calls[i]);
      }
    }
    forall i: nat | i !in calls'
      ensures By(sent', i) == []
    {
      OneMore(sent, Chunk(id, bytes), i);
    }
  }

  lemma InvKept(p: Pipe, e: Event)
    requires Inv(p) && Legal(p, e)
    ensures (InvSane(p); Inv(Step(p, e)))
  {
    hide Calls, Reads;
    InvSane(p);
    match e
    case StartRead(id, count, nonblock) =>
      StartKept(p, id, Reader(count, nonblock));
    case StartWrite(id, data, nonblock) =>
      StartKept(p, id, if p.readers == 0 then WriteDone(data, -EPIPE) else Writer(Begun(data, nonblock)));
    case Change(readers, writers) =>
    case Go(id, signal) =>
      match p.calls[id] {
        case Reader(_, _) => ReadKept(p, id, signal);
        case Writer(_) => WriteKept(p, id, signal);
        case _ =>
      }
  }

  ghost predicate Fresh(c: Call) {
    match c
    case Reader(_, _) => true
    case Writer(w) => w == Begun(w.data, w.nonblock)
    case WriteDone(_, code) => code <= 0
    case ReadDone(_, _) => false
  }

  lemma StartKept(p: Pipe, id: nat, c: Call)
    requires Inv(p) && id !in p.calls && Fresh(c)
    ensures Calls(p.sent, p.calls[id := c]) && Reads(p.taken, p.calls[id := c])
  {
    ReadsReplace(p.taken, p.calls, id, c);
    assert By(p.sent, id) == [];
    assert CallOK(p.sent, id, c);
    CallsReplace(p.sent, p.calls, id, c);
  }

  lemma ReadKept(p: Pipe, id: nat, signal: bool)
    requires Inv(p) && id in p.calls && p.calls[id].Reader?
    ensures Inv(ReadStep(p, id, signal))
  {
    var c := p.calls[id];
    var r := ReadRound(p.contents, p.writers, c.count, c.nonblock, signal);
    ReadSplits(p.contents, p.writers, c.count, c.nonblock, signal);
    hide ReadRound, Inv;
    if r.0.Returns? {
      ReadEnds(p, id, r.0.code, r.0.bytes, r.1);
    }
  }

  lemma ReadEnds(p: Pipe, id: nat, code: int, bytes: seq<Byte>, rest: seq<Byte>)
    requires Inv(p) && id in p.calls && p.calls[id].Reader? && p.contents == bytes + rest
    requires if code > 0 then code == |bytes| else bytes == []
    ensures Inv(p.(contents := rest, calls := p.calls[id := ReadDone(code, bytes)],
      taken := p.taken + [Chunk(id, bytes)]))
  {
    hide Calls, Stream, By, Reads, CallOK;
    ReadCall(p, id, code, bytes);
    CallsReplace(p.sent, p.calls, id, ReadDone(code, bytes));
    ReadsDone(p.taken, p.calls, id, code, bytes);
    OneMore(p.taken, Chunk(id, bytes), id);
    Regroup(Stream(p.taken), bytes, rest);
  }

  lemma Regroup(a: seq<Byte>, b: seq<Byte>, c: seq<Byte>)
    ensures a + (b + c) == (a + b) + c
  {
  }

  lemma ReadCall(p: Pipe, id: nat, code: int, bytes: seq<Byte>)
    requires Inv(p) && id in p.calls && p.calls[id].Reader?
    requires if code > 0 then code == |bytes| else bytes == []
    ensures CallOK(p.sent, id, ReadDone(code, bytes))
  {
    assert CallOK(p.sent, id, p.calls[id]);
  }

  /** A read takes bytes from the front of the pipe. */
  lemma ReadSplits(contents: seq<Byte>, writers: nat, count: nat, nonblock: bool, signal: bool)
    ensures var r := ReadRound(contents, writers, count, nonblock, signal);
      r.0.Returns? ==>
        contents == r.0.bytes + r.1
        && (if r.0.code > 0 then r.0.code == |r.0.bytes| else r.0.bytes == [])
  {
  }

  lemma WriteKept(p: Pipe, id: nat, signal: bool)
    requires Inv(p) && id in p.calls && p.calls[id].Writer?
    ensures (InvSane(p); Inv(WriteStep(p, id, signal)))
  {
    InvSane(p);
    WriterOK(p, id);
    hide Inv, CallOK, Copied, Sane;
    var w := p.calls[id].w;
    match WriteRound(p.contents, p.readers, w, signal)
    case Waits =>
    case Ends(code) =>
      EndOK(p, id, w, signal, code);
      hide WriteRound;
      WriteEnds(p, id, w, code);
    case Copies(n) =>
      assert n == Room(p.contents, |w.data| - w.done) && w.done < |w.data| && |p.contents| < w.size;
      hide WriteRound;
      CopyKept(p, id, w, n);
  }

  lemma WriterOK(p: Pipe, id: nat)
    requires Inv(p) && id in p.calls && p.calls[id].Writer?
    ensures CallOK(p.sent, id, p.calls[id]) && |p.contents| < PAGE_SIZE && p.calls[id].w.done <= |p.calls[id].w.data|
  {
    assert CallOK(p.sent, id, p.calls[id]);
  }

  lemma WriteEnds(p: Pipe, id: nat, w: Writing, code: int)
    requires Inv(p) && id in p.calls && p.calls[id] == Writer(w) && CallOK(p.sent, id, WriteDone(w.data, code))
    ensures Inv(p.(calls := p.calls[id := WriteDone(w.data, code)]))
  {
    hide Calls, Stream, Reads, CallOK;
    CallsReplace(p.sent, p.calls, id, WriteDone(w.data, code));
    ReadsReplace(p.taken, p.calls, id, WriteDone(w.data, code));
  }

  lemma EndOK(p: Pipe, id: nat, w: Writing, signal: bool, code: int)
    requires CallOK(p.sent, id, Writer(w)) && |p.contents| < PAGE_SIZE && w.done <= |w.data|
    requires WriteRound(p.contents, p.readers, w, signal) == Progress.Ends(code)
    ensures CallOK(p.sent, id, WriteDone(w.data, code))
  {
    assert (if code > 0 then code else 0) == w.done;
  }

  lemma CopyKept(p: Pipe, id: nat, w: Writing, n: nat)
    requires Inv(p) && id in p.calls && p.calls[id] == Writer(w) && CallOK(p.sent, id, Writer(w))
    requires w.done < |w.data| && |p.contents| < w.size && n == Room(p.contents, |w.data| - w.done)
    ensures Inv(Copied(p, id, w, n))
  {
    hide Calls, Stream, By, CallOK, Reads;
    var bytes := w.data[w.done..][..n];
    SendOK(p, id, w, n, bytes);
    Regroup(Stream(p.taken), p.contents, bytes);
    ReadsReplace(p.taken, p.calls, id, Writer(w.(done := w.done + n, size := PAGE_SIZE - 1)));
    CallsSend(p.sent, p.calls, id, bytes, Writer(w.(done := w.done + n, size := PAGE_SIZE - 1)));
    OneMore(p.sent, Chunk(id, bytes), id);
  }

  /** A short write that goes ahead finds room for all of it. */
  lemma SendOK(p: Pipe, id: nat, w: Writing, n: nat, bytes: seq<Byte>)
    requires id in p.calls && p.calls[id].Writer? && CallOK(p.sent, id, p.calls[id]) && |p.contents| < PAGE_SIZE
    requires w == p.calls[id].w && w.done < |w.data| && |p.contents| < w.size
    requires n == Room(p.contents, |w.data| - w.done) && bytes == w.data[w.done..][..n]
    ensures CallOK(p.sent + [Chunk(id, bytes)], id, Writer(w.(done := w.done + n, size := PAGE_SIZE - 1)))
  {
    OneMore(p.sent, Chunk(id, bytes), id);
    hide By, Stream, Put;
    if |w.data| < PAGE_SIZE {
      PutFirst(By(p.sent, id), id, w.data, w.done);
      assert n == |w.data|;
    }
    PutMore(By(p.sent, id), id, w.data, w.done, n, bytes);
  }

  lemma PutFirst(chunks: seq<Chunk>, id: nat, data: seq<Byte>, done: nat)
    requires Put(chunks, id, data, done) && done < |data| < PAGE_SIZE
    ensures done == 0 && chunks == []
  {
  }

  lemma PutMore(chunks: seq<Chunk>, id: nat, data: seq<Byte>, done: nat, n: nat, bytes: seq<Byte>)
    requires Put(chunks, id, data, done) && done + n <= |data| && bytes == data[done..][..n]
    requires |data| < PAGE_SIZE ==> done == 0 && n == |data| && chunks == []
    ensures Put(chunks + [Chunk(id, bytes)], id, data, done + n)
  {
    hide Stream;
    OneMore(chunks, Chunk(id, bytes), id);
    assert data[..done + n] == data[..done] + bytes;
    assert n == |data| && done == 0 ==> bytes == data;
  }

  // ---- runs

  ghost predicate Run(p: Pipe, es: seq<Event>, q: Pipe)
    requires Inv(p)
    decreases |es|
  {
    if es == [] then p == q
    else Legal(p, es[0]) && (InvSane(p); InvKept(p, es[0]); Run(Step(p, es[0]), es[1..], q))
  }

  lemma {:induction false} RunInv(p: Pipe, es: seq<Event>, q: Pipe)
    requires Inv(p) && Run(p, es, q)
    ensures Inv(q)
    decreases |es|
  {
    if es != [] {
      hide Inv;
      InvSane(p);
      InvKept(p, es[0]);
      RunInv(Step(p, es[0]), es[1..], q);
    }
  }

  const EMPTY := Pipe([], 1, 1, map[], [], [])

  /** Whatever the readers and writers do: the bytes read are a prefix of the bytes written, in order; at most
      PAGE_SIZE - 1 are in the pipe; and a call that wrote n bytes wrote the first n of its data, in order. */
  lemma InOrder(es: seq<Event>, q: Pipe)
    requires (EmptyInv(); Run(EMPTY, es, q))
    ensures Stream(q.taken) <= Stream(q.sent) && |q.contents| <= PAGE_SIZE - 1
    ensures q.contents == Stream(q.sent)[|Stream(q.taken)|..]
    ensures forall i :: i in q.calls && q.calls[i].WriteDone? && q.calls[i].code > 0 ==>
      q.calls[i].code <= |q.calls[i].data| && Stream(By(q.sent, i)) == q.calls[i].data[..q.calls[i].code]
  {
    EmptyInv();
    RunInv(EMPTY, es, q);
    forall i | i in q.calls && q.calls[i].WriteDone? && q.calls[i].code > 0
      ensures q.calls[i].code <= |q.calls[i].data| && Stream(By(q.sent, i)) == q.calls[i].data[..q.calls[i].code]
    {
      assert CallOK(q.sent, i, q.calls[i]);
    }
  }

  lemma EmptyInv()
    ensures Inv(EMPTY)
  {
  }

  /** A write shorter than a page is atomic: it wrote nothing, or its data is in the stream in one piece, between
      what other calls wrote. */
  lemma Atomic(es: seq<Event>, q: Pipe, id: nat) returns (before: seq<Chunk>, after: seq<Chunk>)
    requires (EmptyInv(); Run(EMPTY, es, q))
    requires id in q.calls && q.calls[id].WriteDone? && |q.calls[id].data| < PAGE_SIZE && q.calls[id].code > 0
    ensures q.calls[id].code == |q.calls[id].data|
    ensures q.sent == before + [Chunk(id, q.calls[id].data)] + after
    ensures Stream(q.sent) == Stream(before) + q.calls[id].data + Stream(after)
    ensures By(before, id) == [] && By(after, id) == []
  {
    EmptyInv();
    RunInv(EMPTY, es, q);
    assert CallOK(q.sent, id, q.calls[id]);
    before, after := Only(q.sent, id, Chunk(id, q.calls[id].data));
  }

  lemma {:induction false} Only(sent: seq<Chunk>, id: nat, c: Chunk) returns (before: seq<Chunk>, after: seq<Chunk>)
    requires By(sent, id) == [c]
    ensures sent == before + [c] + after && By(before, id) == [] && By(after, id) == []
    ensures Stream(sent) == Stream(before) + c.bytes + Stream(after)
    decreases |sent|
  {
    SomeSent(sent, id, c);
    hide Stream, By;
    var init, last := sent[..|sent| - 1], sent[|sent| - 1];
    assert sent == init + [last];
    OneMore(init, last, id);
    if last.from == id {
      JustOne(By(init, id), last, c);
      before, after := init, [];
      Nothing(id);
      assert sent == before + [c] + after;
    } else {
      var rest;
      before, rest := Only(init, id, c);
      after := rest + [last];
      OneMore(rest, last, id);
      Longer(before, c, rest, last);
    }
  }

  lemma SomeSent(sent: seq<Chunk>, id: nat, c: Chunk)
    requires By(sent, id) == [c]
    ensures sent != []
  {
  }

  lemma JustOne(s: seq<Chunk>, x: Chunk, c: Chunk)
    requires s + [x] == [c]
    ensures s == [] && x == c
  {
    assert |s + [x]| == 1;
    assert (s + [x])[|s|] == x;
  }

  lemma Nothing(id: nat)
    ensures Stream([]) == [] && By([], id) == []
  {
  }

  lemma Longer(before: seq<Chunk>, c: Chunk, rest: seq<Chunk>, last: Chunk)
    ensures (before + [c] + rest) + [last] == before + [c] + (rest + [last])
    ensures (Stream(before) + c.bytes + Stream(rest)) + last.bytes == Stream(before) + c.bytes
      + (Stream(rest) + last.bytes)
  {
    hide Stream;
  }

  /** The bytes a read got are a piece of the bytes received, which stand there in the order in which reads ended. */
  lemma ReadsPiece(es: seq<Event>, q: Pipe, id: nat) returns (before: seq<Chunk>, after: seq<Chunk>)
    requires (EmptyInv(); Run(EMPTY, es, q))
    requires id in q.calls && q.calls[id].ReadDone?
    ensures q.calls[id].code > 0 ==> q.calls[id].code == |q.calls[id].bytes|
    ensures q.taken == before + [Chunk(id, q.calls[id].bytes)] + after
    ensures Stream(q.taken) == Stream(before) + q.calls[id].bytes + Stream(after)
    ensures By(before, id) == [] && By(after, id) == []
  {
    EmptyInv();
    RunInv(EMPTY, es, q);
    assert CallOK(q.sent, id, q.calls[id]);
    before, after := Only(q.taken, id, Chunk(id, q.calls[id].bytes));
  }

  /** What a read returns, whatever its count.  With nothing to read into, it returns 0 only without writers; and even
      if there are bytes in the pipe and it may block, it returns -EAGAIN while there are writers. */
  lemma ReadReturns(contents: seq<Byte>, writers: nat, count: nat, nonblock: bool, signal: bool)
    ensures var out := ReadRound(contents, writers, count, nonblock, signal).0;
            && (out == Returns(0, []) <==> writers == 0 && (contents == [] || count == 0))
            && (out == Returns(-EAGAIN, []) <==> writers > 0 && if contents == [] then nonblock else count == 0)
            && (contents != [] ==> (out == Returns(-EAGAIN, []) <==> count == 0 && writers > 0))
            && (out == Returns(-ERESTARTSYS, []) <==> contents == [] && writers > 0 && !nonblock && signal)
            && (out.Sleeps? <==> contents == [] && writers > 0 && !nonblock && !signal)
            && (out.Returns? && out.code > 0 <==> contents != [] && count > 0)
  {
    var n := Min(count, |contents|);
    assert n == 0 <==> contents == [] || count == 0;
    assert n == 0 ==> contents[..n] == [];
  }

  /** What a round of a write comes to.  It copies if the pipe holds less than it waits for, and then all that is left
      or
      all that there is room for.  Otherwise, if there is something left, it ends without readers, for a signal or if it
      must not block, in this order, with the bytes written so far or the error; or it waits. */
  lemma WriteReturns(contents: seq<Byte>, readers: nat, w: Writing, signal: bool)
    requires |contents| < PAGE_SIZE && w.done <= |w.data| && 0 < w.size
    ensures var out := WriteRound(contents, readers, w, signal);
      var left, full := |w.data| - w.done, |contents| >= w.size;
      && (out.Copies? <==> left > 0 && !full)
      && (out.Copies? ==> out.n <= left && |contents| + out.n < PAGE_SIZE
                          && (out.n == left || |contents| + out.n == PAGE_SIZE - 1))
      && (out.Waits? <==> left > 0 && full && readers > 0 && !signal && !w.nonblock)
      && (out == Ends(-EPIPE) <==> left > 0 && full && readers == 0 && w.done == 0)
      && (out == Ends(-ERESTARTSYS) <==> left > 0 && full && readers > 0 && signal && w.done == 0)
      && (out == Ends(-EAGAIN) <==> left > 0 && full && readers > 0 && !signal && w.nonblock && w.done == 0)
      && (out.Ends? && out.code >= 0 <==>
            left == 0 || (full && w.done > 0 && (readers == 0 || signal || w.nonblock)))
      && (out.Ends? && out.code >= 0 ==> out.code == w.done)
  {
  }

  /** So a write of less than a page goes in at once if all of it fits, and a longer one as soon as one byte does. */
  lemma FirstRound(contents: seq<Byte>, readers: nat, data: seq<Byte>, nonblock: bool, signal: bool)
    requires |contents| < PAGE_SIZE && data != []
    ensures var out := WriteRound(contents, readers, Begun(data, nonblock), signal);
      && (|data| < PAGE_SIZE ==>
            (out == Copies(|data|) <==> |contents| + |data| < PAGE_SIZE) && (out.Copies? ==> out.n == |data|))
      && (|data| >= PAGE_SIZE ==> (out.Copies? <==> |contents| < PAGE_SIZE - 1))
  {
  }

  /** A write to a pipe that nobody can read fails at once, and only such a one. */
  lemma StartDoes(p: Pipe, id: nat, data: seq<Byte>, nonblock: bool)
    requires Legal(p, StartWrite(id, data, nonblock)) && Inv(p)
    ensures (InvSane(p);
      var q := Step(p, StartWrite(id, data, nonblock));
      && (q.calls[id] == WriteDone(data, -EPIPE) <==> p.readers == 0)
      && (p.readers > 0 ==> q.calls[id] == Writer(Begun(data, nonblock)))
      && q == p.(calls := p.calls[id := q.calls[id]]))
  {
    InvSane(p);
  }

  /** A blocking read of no bytes, with a byte in the pipe and a writer. */
  lemma ZeroRead(x: Byte)
    ensures ReadRound([x], 1, 0, false, false).0 == Returns(-EAGAIN, [])
  {
    ReadReturns([x], 1, 0, false, false);
  }

  /** Once a read of at least one byte returns 0, everything that was ever sent has been received, and no write end is
      open. */
  lemma EndOfFile(es: seq<Event>, q: Pipe, id: nat, signal: bool)
    requires (EmptyInv(); Run(EMPTY, es, q))
    requires id in q.calls && q.calls[id].Reader? && q.calls[id].count > 0
    requires ReadStep(q, id, signal).calls[id] == ReadDone(0, [])
    ensures Stream(q.taken) == Stream(q.sent) && q.writers == 0
  {
    EmptyInv();
    RunInv(EMPTY, es, q);
    var c := q.calls[id];
    ReadReturns(q.contents, q.writers, c.count, c.nonblock, signal);
  }
}
