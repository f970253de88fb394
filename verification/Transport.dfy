/** The patched byte transport, over one linear memory. Requests and replies share its low
    part; a reply that does not fit spills into the socket file, and a request longer than
    the receive buffer is streamed from its file. */
module Transport {
  import opened Messages
  import opened Sequences
  import opened LinearMemory

  lemma Behindmost(m: seq<byte>, base: nat, front: seq<byte>, s: seq<byte>)
    requires base + |front| + |s| <= |m| && m[base..base + |front| + |s|] == front + s
    ensures m[base + |front|..base + |front| + |s|] == s
  {
    assert m[base..base + |front| + |s|][|front|..] == s;
  }

  /** PqRecvBuffer as an address, PqRecvPointer, PqRecvLength. */
  datatype Receive = Receive(base: nat, ptr: nat, len: nat)

  /** The request file, the position in it, queryfp != NULL, and querylen. */
  datatype Query = Query(file: seq<byte>, pos: nat, open: bool, left: int)

  /** PqSendBuffer as an address, PqSendPointer, PqSendBufferSize, and PqSendBuffer_save,
      where 0 is NULL. */
  datatype Send = Send(base: nat, ptr: nat, size: nat, save: nat)

  /** PqSendPointer is unsigned, and so is its comparison with PqSendBufferSize: a negative
      size counts as a large one. */
  function Unsigned(n: int): nat {
    n % 0x1_0000_0000
  }

  /** The longest request behind which the copy of a reply stops at the end of the shared
      part is two bytes shorter than it; behind a longer one the size is negative. */
  lemma StopsInTimeIff(cma: nat, cmaRsize: nat)
    requires cma <= 0x7fff_ffff && cmaRsize <= 0x7fff_ffff
    ensures cmaRsize + 2 + Unsigned(cma - (cmaRsize + 2)) <= cma <==> cmaRsize + 2 <= cma
  {
    var size := cma - (cmaRsize + 2);
    if size < 0 {
      assert size % 0x1_0000_0000 == size + 0x1_0000_0000;
    } else {
      assert size % 0x1_0000_0000 == size;
    }
  }

  /** sockfiles, SOCKET_FILE != NULL, what was written to that file, SOCKET_DATA. */
  datatype Socket = Socket(files: bool, open: bool, out: seq<byte>, data: nat)

  /** The receive side: buffered is the unread part of the buffer and tail the part of the
      request that is still in its file. */
  ghost predicate ReceiveOk(image: seq<byte>, cma: nat, recv: Receive, query: Query, buffered: seq<byte>,
                            tail: seq<byte>) {
    && recv.ptr <= recv.len <= cma && recv.base + recv.len <= |image|
    && buffered == image[recv.base + recv.ptr..recv.base + recv.len]
    && query.pos <= |query.file|
    && tail == (if query.open && query.left != 0 then query.file[query.pos..] else [])
    && (query.open && query.left != 0 ==> query.left == |tail|)
  }

  /** The send side: stream is what the send buffer holds, or the file once it took over.
      Its first lead bytes were in the buffer before this reply began. */
  ghost predicate SendOk(image: seq<byte>, send: Send, socket: Socket, stream: seq<byte>, lead: nat) {
    && socket.open && lead <= |stream| && socket.data == |stream| - lead
    && (socket.files ==> stream == socket.out)
    && (!socket.files ==>
          && socket.out == [] && send.ptr == |stream|
          && send.base + send.ptr <= |image| && send.base + send.size <= |image|
          && stream == image[send.base..send.base + send.ptr])
  }

  lemma ReplyGrows(m: seq<byte>, m': seq<byte>, send: Send, socket: Socket, stream: seq<byte>, lead: nat, s: seq<byte>)
    requires SendOk(m, send, socket, stream, lead) && !socket.files
    requires send.ptr + |s| <= send.size && Copied(m, send.base + send.ptr, s, m')
    ensures SendOk(m', send.(ptr := send.ptr + |s|), socket.(data := socket.data + |s|), stream + s, lead)
  {
    CopiedAppends(m, send.base, send.ptr, s, m');
  }

  /** A copy into memory changes the unread bytes where it hits them. */
  lemma RequestIsOverlaid(m: seq<byte>, m': seq<byte>, at: nat, s: seq<byte>, cma: nat,
                          recv: Receive, query: Query, buffered: seq<byte>, tail: seq<byte>)
    requires ReceiveOk(m, cma, recv, query, buffered, tail) && at + |s| <= |m| && Copied(m, at, s, m')
    ensures ReceiveOk(m', cma, recv, query, Overlaid(buffered, recv.base + recv.ptr, at, s), tail)
  {
    CopiedOverlays(m, at, s, m', recv.base + recv.ptr, recv.base + recv.len);
  }

  class PqComm {
    /** Linear memory. The shared part is [0, cma), CMA_MB megabytes long. */
    const mem: array<byte>
    const cma: nat
    /** The address of PqRecvBuffer_static, above the shared part, and PQ_RECV_BUFFER_SIZE. */
    const staticBase: nat
    const recvSize: nat
    /** The send buffer that pq_init allocates, and PQ_SEND_BUFFER_SIZE. */
    const sendBase: nat
    const sendSize: nat

    var recv: Receive
    var query: Query
    var send: Send
    var socket: Socket
    var cmaRsize: nat
    /** PqCommReadingMsg: set by pq_startmsgread, cleared at the end of a message. */
    var reading: bool

    /** The content of the linear memory; the unread bytes of the receive buffer; the bytes
        still in the request file; what was in the send buffer when this reply began, lead
        bytes, with every argument of internal_putbytes since. */
    ghost var image: seq<byte>
    ghost var buffered: seq<byte>
    ghost var tail: seq<byte>
    ghost var stream: seq<byte>
    ghost var lead: nat

    ghost predicate Layout()
      reads this`image, mem
    {
      && 0 < recvSize < cma <= staticBase && sendSize <= cma
      && staticBase + cma <= sendBase && sendBase + cma <= mem.Length
      && |image| == mem.Length && forall i :: 0 <= i < mem.Length ==> image[i] == mem[i]
    }

    ghost predicate ReceiveValid()
      reads this`recv, this`query, this`buffered, this`tail, this`image, mem
    {
      && Layout()
      && (recv.base == staticBase || (recv.base == 1 && recv.len < cma))
      && ReceiveOk(image, cma, recv, query, buffered, tail)
    }

    /** The send buffer is behind a shared request, or where pq_init put it. */
    ghost predicate SendInRange()
      reads this`send
    {
      && (2 <= send.base <= cma || send.base == sendBase)
      && (send.save == 0 || 2 <= send.save <= cma || send.save == sendBase)
      && send.ptr <= cma && send.size <= cma
    }

    /** Where the reply is while it is being written. */
    ghost predicate SendValid()
      reads this`send, this`socket, this`stream, this`lead, this`image, mem
    {
      Layout() && SendInRange() && SendOk(image, send, socket, stream, lead)
    }

    constructor (memory: array<byte>, cma: nat, staticBase: nat, recvSize: nat, sendBase: nat, sendSize: nat)
      requires 0 < recvSize < cma <= staticBase && sendSize <= cma
      requires staticBase + cma <= sendBase && sendBase + cma <= memory.Length
      ensures mem == memory && this.cma == cma && this.staticBase == staticBase && this.recvSize == recvSize
      ensures this.sendBase == sendBase && this.sendSize == sendSize
      ensures ReceiveValid() && SendInRange() && recv == Receive(staticBase, 0, 0) && tail == []
      ensures socket == Socket(false, false, [], 0) && cmaRsize == 0 && !reading
    {
      mem, this.cma, this.staticBase, this.recvSize := memory, cma, staticBase, recvSize;
      this.sendBase, this.sendSize := sendBase, sendSize;
      recv, query := Receive(staticBase, 0, 0), Query([], 0, false, 0);
      send, socket := Send(sendBase, 0, sendSize, 0), Socket(false, false, [], 0);
      cmaRsize, reading := 0, false;
      image, buffered, tail, stream, lead := memory[..], [], [], [], 0;
    }

    // ---------- Receiving ----------

    /** memcpy into linear memory. */
    method CopyTo(at: nat, s: seq<byte>)
      requires Layout() && at + |s| <= |image|
      modifies this`image, mem
      ensures Layout() && Copied(old(image), at, s, image)
    {
      forall i | 0 <= i < |s| {
        mem[at + i] := s[i];
      }
      image := mem[..];
    }

    /** memcpy into linear memory, over whatever part of the unread bytes is there. */
    method CopyOver(at: nat, s: seq<byte>)
      requires ReceiveValid() && at + |s| <= |image|
      modifies this`image, this`buffered, mem
      ensures ReceiveValid() && |image| == |old(image)| && image[at..at + |s|] == s
      ensures buffered == Overlaid(old(buffered), recv.base + recv.ptr, at, s)
    {
      CopyTo(at, s);
      CopiedIsThere(old(image), at, s, image);
      RequestIsOverlaid(old(image), image, at, s, cma, recv, query, buffered, tail);
      buffered := Overlaid(buffered, recv.base + recv.ptr, at, s);
    }

    /** fread of at most count bytes to the start of PqRecvBuffer; rest is what the file
        still holds. */
    method FreadToBuffer(count: nat, ghost rest: seq<byte>) returns (got: nat)
      requires Layout() && (recv.base == 1 || recv.base == staticBase)
      requires count <= recvSize && query.pos <= |query.file| && rest == query.file[query.pos..]
      modifies this`query, this`image, mem
      ensures Layout() && got == (if count <= |rest| then count else |rest|)
      ensures query == old(query).(pos := old(query.pos) + got) && query.pos <= |query.file|
      ensures query.file[query.pos..] == rest[got..]
      ensures image[recv.base..recv.base + got] == rest[..got]
    {
      got := if count <= |query.file| - query.pos then count else |query.file| - query.pos;
      var chunk := query.file[query.pos..query.pos + got];
      assert chunk == rest[..got];
      CopyTo(recv.base, chunk);
      CopiedIsThere(old(image), recv.base, chunk, image);
      query := query.(pos := query.pos + got);
    }

    /** pq_recvbuf_fill on a freshly opened file. */
    method RecvBufFill(file: seq<byte>)
      requires Layout() && (recv.base == 1 || recv.base == staticBase)
      modifies this`query, this`recv, this`buffered, this`tail, this`image, mem
      ensures ReceiveValid() && recv.ptr == 0 && recv.base == old(recv.base)
      ensures buffered + tail == file
      ensures |file| <= recvSize ==> tail == [] && buffered == file
      ensures |file| > recvSize ==> |buffered| == recvSize
    {
      query := Query(file, 0, false, 0);
      assert file == file[0..];
      if |file| > recvSize {
        var got := FreadToBuffer(recvSize, file);
        query := query.(open := true, left := |file| - got);
        recv := recv.(ptr := 0, len := got);
      } else {
        var _ := FreadToBuffer(|file|, file);
        recv := recv.(ptr := 0, len := |file|);
      }
      buffered, tail := file[..recv.len], file[recv.len..];
    }

    /** The part of pq_recvbuf that reads on in the request file. */
    method Refill()
      requires ReceiveValid() && recv.ptr == recv.len == 0 && tail != []
      modifies this`query, this`recv, this`buffered, this`tail, this`image, mem
      ensures ReceiveValid() && recv.ptr == 0 < recv.len && recv.base == old(recv.base)
      ensures buffered + tail == old(tail)
    {
      ghost var rest := tail;
      var got := FreadToBuffer(recvSize, tail);
      assert rest == rest[..got] + rest[got..];
      buffered, tail := rest[..got], rest[got..];
      recv := recv.(len := recv.len + got);
      query := query.(left := query.left - got);
      if query.left <= 0 {
        query := query.(open := false);
      }
    }

    /** pq_recvbuf, which its callers enter only with a drained buffer. */
    method RecvBuf() returns (eof: bool)
      requires ReceiveValid() && recv.ptr == recv.len
      modifies this`query, this`recv, this`buffered, this`tail
      modifies if query.open && query.left != 0 then {mem, this} else {}
      ensures unchanged(`send, `socket, `stream, `lead, `cmaRsize, `reading)
      ensures ReceiveValid() && recv.ptr == 0 && recv.base == old(recv.base)
      ensures buffered + tail == old(tail)
      ensures eof <==> recv.len == 0
      ensures eof <==> old(tail) == []
      ensures eof ==> image == old(image)
    {
      recv := recv.(ptr := 0, len := 0);
      buffered := [];
      if query.open && query.left != 0 {
        Refill();
        return false;
      }
      return true;
    }

    /** The one place a byte leaves the receive buffer. */
    method TakeByte() returns (c: byte)
      requires ReceiveValid() && recv.ptr < recv.len
      modifies this`recv, this`buffered
      ensures ReceiveValid() && recv == old(recv).(ptr := old(recv.ptr) + 1)
      ensures old(buffered) == [c] + buffered
    {
      c := mem[recv.base + recv.ptr];
      assert c == image[recv.base + recv.ptr] == buffered[0];
      recv := recv.(ptr := recv.ptr + 1);
      buffered := buffered[1..];
    }

    /** pq_getbyte: the next byte of the request, or -1 at its end. */
    method GetByte() returns (c: int)
      requires ReceiveValid()
      modifies this`query, this`recv, this`buffered, this`tail
      modifies if query.open && query.left != 0 then {mem, this} else {}
      ensures unchanged(`send, `socket, `stream, `lead, `cmaRsize, `reading)
      ensures ReceiveValid() && -1 <= c < 256 && (c != -1 ==> recv.ptr > 0)
      ensures c == -1 ==> old(buffered + tail) == buffered == tail == []
      ensures c != -1 ==> old(buffered + tail) == [c as byte] + (buffered + tail)
      ensures old(tail) == [] ==> OnlyReceived()
    {
      ghost var before := tail;
      if recv.ptr >= recv.len {
        assert buffered == [] && buffered + tail == tail;
        var eof := RecvBuf();
        if eof {
          return -1;
        }
      }
      var b := TakeByte();
      AppendAssoc([b], buffered, tail);
      return b as int;
    }

    /** Reading from a request that is all in the buffer only moves pointers. */
    twostate predicate OnlyReceived()
      reads this`tail, this`image, this`recv
    {
      && tail == [] && image == old(image) && recv.base == old(recv.base) && recv.len <= old(recv.len)
      && (recv.len == 0 || (recv.len == old(recv.len) && recv.ptr >= old(recv.ptr)))
    }

    /** pq_getbytes: count bytes of the request, or EOF with everything consumed. */
    method GetBytes(count: nat) returns (ok: bool, s: seq<byte>)
      requires ReceiveValid()
      modifies this`query, this`recv, this`buffered, this`tail
      modifies if query.open && query.left != 0 then {mem, this} else {}
      ensures unchanged(`send, `socket, `stream, `lead, `cmaRsize, `reading)
      ensures ReceiveValid()
      ensures old(buffered + tail) == s + (buffered + tail)
      ensures if ok then |s| == count else |s| < count && buffered == tail == []
      ensures old(tail) == [] ==> OnlyReceived()
    {
      s := [];
      while |s| < count
        invariant ReceiveValid() && |s| <= count
        invariant old(buffered + tail) == s + (buffered + tail)
        invariant old(tail) == [] ==> OnlyReceived()
        invariant unchanged(`send, `socket, `stream, `lead, `cmaRsize, `reading)
        modifies this`query, this`recv, this`buffered, this`tail
        modifies if query.open && query.left != 0 then {mem, this} else {}
      {
        var c := GetByte();
        if c == -1 {
          return false, s;
        }
        AppendAssoc(s, [c as byte], buffered + tail);
        s := s + [c as byte];
      }
      return true, s;
    }

    /** pq_getmessage: the length word, then as many bytes as it announces. At EOF or an
        impossible length it returns in the middle of the message. */
    method GetMessage() returns (frame: Frame)
      requires ReceiveValid()
      modifies this`query, this`recv, this`buffered, this`tail, this`reading
      modifies if query.open && query.left != 0 then {mem, this} else {}
      ensures unchanged(`send, `socket, `stream, `lead, `cmaRsize)
      ensures ReceiveValid()
      ensures (frame, buffered + tail) == NextFrame(old(buffered + tail))
      ensures reading == (frame.Torn? && old(reading))
      ensures old(tail) == [] ==> OnlyReceived()
    {
      ghost var word;
      var n;
      n, word := GetLength();
      if n == -1 {
        return Torn;
      }
      ghost var rest := buffered + tail;
      frame := GetBody(n - 4);
      if frame.Whole? {
        WholeFrame(word, frame.body, buffered + tail);
      } else {
        assert buffered + tail == [];
        TornFrame(word, rest);
      }
    }

    /** The length word, or -1 at EOF or for an impossible length. */
    method GetLength() returns (n: int, ghost word: seq<byte>)
      requires ReceiveValid()
      modifies this`query, this`recv, this`buffered, this`tail
      modifies if query.open && query.left != 0 then {mem, this} else {}
      ensures unchanged(`send, `socket, `stream, `lead, `cmaRsize, `reading)
      ensures ReceiveValid()
      ensures if n == -1 then NextFrame(old(buffered + tail)) == (Torn, buffered + tail)
              else
                && |word| == 4 && n == ReadInt32(word) && LengthOk(n)
                && old(buffered + tail) == word + (buffered + tail)
      ensures old(tail) == [] ==> OnlyReceived()
    {
      var ok, s := GetBytes(4);
      word := s;
      if !ok {
        return -1, s;
      }
      TornFrame(s, buffered + tail);
      n := ReadInt32(s);
      if !LengthOk(n) {
        return -1, s;
      }
    }

    /** The body of a message, and with it its end. */
    method GetBody(count: nat) returns (frame: Frame)
      requires ReceiveValid() && count <= MAX_BODY
      modifies this`query, this`recv, this`buffered, this`tail, this`reading
      modifies if query.open && query.left != 0 then {mem, this} else {}
      ensures unchanged(`send, `socket, `stream, `lead, `cmaRsize)
      ensures ReceiveValid() && reading == (frame.Torn? && old(reading))
      ensures match frame
              case Whole(body) => |body| == count && old(buffered + tail) == body + (buffered + tail)
              case Torn => |old(buffered + tail)| < count && buffered == tail == []
      ensures old(tail) == [] ==> OnlyReceived()
    {
      var ok, body := GetBytes(count);
      if !ok {
        return Torn;
      }
      reading := false;
      return Whole(body);
    }

    /** Successive reads deliver a request file of any length, in order, then EOF. */
    method ReceiveFile(file: seq<byte>) returns (got: seq<byte>)
      requires Layout() && (recv.base == 1 || recv.base == staticBase)
      modifies this, mem
      ensures got == file
    {
      RecvBufFill(file);
      got := [];
      var more := true;
      while more
        invariant ReceiveValid()
        invariant file == got + (buffered + tail)
        invariant !more ==> buffered == tail == []
        decreases more, |file| - |got|
      {
        var c := GetByte();
        if c == -1 {
          more := false;
        } else {
          AppendAssoc(got, [c as byte], buffered + tail);
          got := got + [c as byte];
        }
      }
    }

    // ---------- Sending ----------

    /** Writing s changes memory only where the send buffer takes it. */
    twostate predicate Grows(s: seq<byte>)
      reads this`send, this`socket, this`stream, this`image
    {
      && send.base == old(send.base) && send.size == old(send.size) && stream == old(stream) + s
      && Written(old(socket.files), old(image), send.base, send.size, |old(stream)|, s, image)
    }

    /** internal_putbytes: to the shared part until it is full, then to the socket file. Bytes
        that are still unread are overwritten if they lie in the way. */
    method PutBytes(s: seq<byte>)
      requires SendValid()
      modifies this`send, this`socket, this`stream, this`image, mem
      ensures SendValid() && Grows(s)
      ensures socket.files <==> old(socket.files) || (s != [] && |stream| > send.size)
    {
      if socket.files {
        WriteFile(s);
      } else {
        var done := PutShared(s);
        assert s[..done] + s[done..] == s;
        if socket.files {
          ghost var n := |old(stream)|;
          WrittenTwice(false, true, send.base, send.size, n, s[..done], s[done..], old(image), image, image);
          AppendAssoc(old(stream), s[..done], s[done..]);
          WriteFile(s[done..]);
        }
      }
    }

    /** The fwrite of internal_putbytes. */
    method WriteFile(s: seq<byte>)
      requires SendValid() && socket.files
      modifies this`socket, this`stream
      ensures SendValid() && stream == old(stream) + s && socket.files
    {
      socket := socket.(out := socket.out + s, data := socket.data + |s|);
      stream := stream + s;
    }

    /** The loop of internal_putbytes. What is left over belongs in the socket file, to
        which the full shared part was just written. */
    method PutShared(s: seq<byte>) returns (done: nat)
      requires SendValid() && !socket.files
      modifies this`send, this`socket, this`stream, this`image, mem
      ensures SendValid() && done <= |s| && Grows(s[..done])
      ensures socket.files <==> s != [] && |old(stream)| + |s| > send.size
      ensures if socket.files then |stream| >= send.size else done == |s|
    {
      done := 0;
      NothingWritten(false, image, send.base, send.size, |stream|);
      while done < |s|
        invariant SendValid() && done <= |s| && Grows(s[..done]) && !socket.files
        invariant done == 0 || send.ptr <= send.size
      {
        if send.ptr >= send.size {
          Spill();
          return;
        }
        var left := |s| - done;
        var amount := if send.size - send.ptr > left then left else send.size - send.ptr;
        PutChunk(s, done, amount, old(image), old(stream));
        done := done + amount;
      }
    }

    /** One turn of that loop, in a reply that began in memory m behind what was sent before. */
    method PutChunk(s: seq<byte>, done: nat, amount: nat, ghost m: seq<byte>, ghost before: seq<byte>)
      requires SendValid() && !socket.files && done + amount <= |s| && send.ptr + amount <= send.size
      requires stream == before + s[..done] && Written(false, m, send.base, send.size, |before|, s[..done], image)
      modifies this`send, this`socket, this`stream, this`image, mem
      ensures SendValid() && !socket.files && send.ptr == old(send.ptr) + amount
      ensures send.base == old(send.base) && send.size == old(send.size)
      ensures stream == before + s[..done + amount]
      ensures Written(false, m, send.base, send.size, |before|, s[..done + amount], image)
    {
      var chunk := s[done..done + amount];
      assert s[..done] + chunk == s[..done + amount];
      AppendAssoc(before, s[..done], chunk);
      CopyToReply(chunk);
      WrittenTwice(false, false, send.base, send.size, |before|, s[..done], chunk, m, old(image), image);
    }

    /** The full shared part goes to the socket file, which takes over from here. */
    method Spill()
      requires SendValid() && !socket.files
      modifies this`socket
      ensures SendValid() && socket.files
    {
      var sent := mem[send.base..send.base + send.ptr];
      assert sent == stream;
      socket := socket.(out := socket.out + sent, files := true);
    }

    /** The memcpy of internal_putbytes with its pointer updates. */
    method CopyToReply(s: seq<byte>)
      requires SendValid() && !socket.files && send.ptr + |s| <= send.size
      modifies this`send, this`socket, this`stream, this`image, mem
      ensures SendValid() && Grows(s) && !socket.files && send.ptr == old(send.ptr) + |s|
    {
      assert s[..|s|] == s;
      CopyTo(send.base + send.ptr, s);
      ReplyGrows(old(image), image, send, socket, stream, lead, s);
      send := send.(ptr := send.ptr + |s|);
      socket := socket.(data := socket.data + |s|);
      stream := stream + s;
    }

    /** pq_putmessage for each reply message in turn. */
    method PutMessages(ms: seq<Msg>)
      requires SendValid()
      modifies this`send, this`socket, this`stream, this`image, mem
      ensures SendValid() && Grows(EncodeAll(ms))
      ensures socket.files <==> old(socket.files) || (ms != [] && |stream| > send.size)
    {
      ghost var now, files, before := image, socket.files, stream;
      NothingWritten(files, image, send.base, send.size, |stream|);
      assert ms[..0] == [] && before + [] == before;
      var k := 0;
      while k < |ms|
        invariant SendValid() && k <= |ms| && send.base == old(send.base) && send.size == old(send.size)
        invariant stream == before + EncodeAll(ms[..k])
        invariant Written(files, now, send.base, send.size, |before|, EncodeAll(ms[..k]), image)
        invariant socket.files <==> files || (k > 0 && |stream| > send.size)
      {
        EncodeNext(ms, k);
        PutNext(Encode(ms[k]), EncodeAll(ms[..k]), files, now, before);
        k := k + 1;
      }
      assert ms[..k] == ms;
    }

    /** More bytes of a reply that began in memory m behind what was sent before. */
    method PutNext(next: seq<byte>, ghost sent: seq<byte>, ghost files: bool, ghost m: seq<byte>,
                   ghost before: seq<byte>)
      requires SendValid() && stream == before + sent && Written(files, m, send.base, send.size, |before|, sent, image)
      requires if files then socket.files else socket.files ==> |stream| >= send.size
      modifies this`send, this`socket, this`stream, this`image, mem
      ensures SendValid() && send.base == old(send.base) && send.size == old(send.size)
      ensures stream == before + (sent + next)
      ensures Written(files, m, send.base, send.size, |before|, sent + next, image)
      ensures socket.files <==> old(socket.files) || (next != [] && |stream| > send.size)
    {
      AppendAssoc(before, sent, next);
      ghost var after := socket.files;
      PutBytes(next);
      WrittenTwice(files, after, send.base, send.size, |before|, sent, next, m, old(image), image);
    }

    /** The whole answer to a message. Unread bytes that lie in its way are lost. */
    method PutReply(ms: seq<Msg>)
      requires ReceiveValid() && SendValid()
      modifies this`send, this`socket, this`stream, this`image, this`buffered, mem
      ensures ReceiveValid() && SendValid() && Grows(EncodeAll(ms))
      ensures socket.files <==> old(socket.files) || (ms != [] && |stream| > send.size)
    {
      PutMessages(ms);
      buffered := image[recv.base + recv.ptr..recv.base + recv.len];
    }

    /** internal_flush, the pq_flush of a ReadyForQuery: only the file mode rewinds. */
    method Flush()
      requires SendValid()
      modifies this`send
      ensures SendValid() && send == if socket.files then old(send).(ptr := 0) else old(send)
    {
      if socket.files {
        send := send.(ptr := 0);
      }
    }

    /** pq_startmsgread: with a drained buffer, point both buffers at the shared part of
        this call, or back at the private ones in file mode. Inside a message it raises
        FATAL: lost says so. */
    method StartMsgRead() returns (lost: bool)
      requires ReceiveValid() && SendInRange() && cmaRsize + 2 <= cma
      modifies this`recv, this`buffered, this`send, this`reading
      ensures ReceiveValid() && SendInRange() && reading && lost == old(reading)
      ensures lost || old(recv.ptr < recv.len) ==> recv == old(recv) && buffered == old(buffered) && send == old(send)
      ensures !lost && old(recv.ptr == recv.len) && socket.files ==>
        && recv == old(recv).(base := staticBase) && buffered == old(buffered)
        && send == old(send).(base := if old(send.save) != 0 then old(send.save) else old(send.base), size := sendSize)
      ensures !lost && old(recv.ptr == recv.len) && !socket.files ==>
        && recv == Receive(1, 0, cmaRsize) && buffered == image[1..1 + cmaRsize]
        && send == Send(cmaRsize + 2, 0, cma - cmaRsize - 2, old(send.base))
    {
      if reading {
        return true;
      }
      if recv.ptr == recv.len {
        if socket.files {
          recv := recv.(base := staticBase);
          if send.save != 0 {
            send := send.(base := send.save);
          }
          send := send.(size := sendSize);
        } else {
          recv := Receive(1, 0, cmaRsize);
          buffered := image[1..1 + cmaRsize];
          send := Send(2 + cmaRsize, 0, cma - (2 + cmaRsize), send.base);
        }
      }
      reading := true;
      return false;
    }

    /** pq_endmsgread */
    method EndMsgRead()
      modifies this`reading
      ensures !reading
    {
      reading := false;
    }
  }
}
