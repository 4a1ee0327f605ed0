/**
 The receive loop of miniweb_worker_thread (src/net/worker.c): bytes from a non-blocking
 socket are appended to the connection buffer until the header terminator is complete, the
 socket has no more data, the peer is gone or the buffer is full.
 */
module Receive {
  import opened Common

  const CR: Byte := 13
  const LF: Byte := 10

  /** One answer of recv(2). */
  datatype Answer = Data(bytes: seq<Byte>) | WouldBlock | Failed | Ended

  datatype Outcome = Complete | Again | PeerGone | TooLarge

  /** CRLF CRLF stands at position `i` of the C string stored in `data`. */
  predicate TerminatorAt(data: seq<Byte>, i: nat) {
    && i + 4 <= |data|
    && data[i] == CR && data[i + 1] == LF && data[i + 2] == CR && data[i + 3] == LF
    && forall j :: 0 <= j < i ==> data[j] != 0
  }

  /** What strstr(buffer, "\r\n\r\n") decides: NUL bytes end the search. */
  ghost predicate HeaderComplete(data: seq<Byte>) {
    exists i: nat :: TerminatorAt(data, i)
  }

  method FindHeaderEnd(data: seq<Byte>) returns (found: bool)
    ensures found <==> HeaderComplete(data)
  {
    var i := 0;
    while i + 4 <= |data|
      invariant 0 <= i
      invariant forall j: nat :: j < i ==> !TerminatorAt(data, j)
      invariant forall j :: 0 <= j < i && j < |data| ==> data[j] != 0
    {
      if data[i] == CR && data[i + 1] == LF && data[i + 2] == CR && data[i + 3] == LF {
        assert TerminatorAt(data, i);
        return true;
      }
      if data[i] == 0 { return false; }
      i := i + 1;
    }
    return false;
  }

  /** More bytes never hide a terminator that was already complete. */
  lemma HeaderStaysComplete(data: seq<Byte>, more: seq<Byte>)
    requires HeaderComplete(data)
    ensures HeaderComplete(data + more)
  {
    var i: nat :| TerminatorAt(data, i);
    assert TerminatorAt(data + more, i);
  }

  class Connection {
    const buffer: array<Byte>
    var bytesRead: nat

    constructor (size: nat)
      requires size > 0
      ensures fresh(buffer) && buffer.Length == size && bytesRead == 0 && buffer[0] == 0
    {
      buffer := new Byte[size](_ => 0);
      bytesRead := 0;
    }

    ghost function Received(): seq<Byte>
      reads this, buffer
      requires bytesRead <= buffer.Length
    {
      buffer[..bytesRead]
    }

    method Append(bytes: seq<Byte>)
      requires bytesRead + |bytes| < buffer.Length
      modifies this, buffer
      ensures bytesRead == old(bytesRead) + |bytes|
      ensures Received() == old(Received()) + bytes && buffer[bytesRead] == 0
      ensures forall j :: bytesRead < j < buffer.Length ==> buffer[j] == old(buffer[j])
    {
      for i := 0 to |bytes|
        invariant bytesRead == old(bytesRead)
        invariant buffer[..bytesRead] == old(buffer[..bytesRead])
        invariant forall j :: 0 <= j < i ==> buffer[bytesRead + j] == bytes[j]
        invariant forall j :: bytesRead + i <= j < buffer.Length ==> buffer[j] == old(buffer[j])
      {
        buffer[bytesRead + i] := bytes[i];
      }
      bytesRead := bytesRead + |bytes|;
      buffer[bytesRead] := 0;
      assert Received() == old(Received()) + bytes;
    }

    /**
     One visit of a worker.  `recv(k, len)` is the answer to the k-th call with room for `len`
     bytes.  The chunks are those answers, each to a call with the room the earlier ones left, and
     are stored in order as they came.  The loop stops at the first chunk that completes the header
     or fills the buffer, or else at the first answer that is no data: Again when the socket has no
     more for now, PeerGone when it has failed or ended.  It never writes outside the first
     `maxReqSize` bytes, and ends because every chunk shrinks the room that is left.
     */
    method ReceiveRequest(maxReqSize: nat, recv: (nat, nat) -> Answer)
      returns (outcome: Outcome, ghost chunks: seq<seq<Byte>>)
      requires 1 <= maxReqSize <= buffer.Length && bytesRead < maxReqSize
      requires forall k, len :: recv(k, len).Data? ==> 1 <= |recv(k, len).bytes| <= len
      modifies this, buffer
      ensures bytesRead < maxReqSize
      ensures Received() == old(Received()) + Joined(chunks)
      ensures AnswersAre(recv, maxReqSize - old(bytesRead) - 1, chunks)
      ensures chunks != [] ==> buffer[bytesRead] == 0
      ensures forall j :: maxReqSize <= j < buffer.Length ==> buffer[j] == old(buffer[j])
      ensures IncompleteUpTo(old(Received()), chunks, |chunks| - 1)
      ensures
        var stopped := chunks != [] && (HeaderComplete(Received()) || bytesRead == maxReqSize - 1);
        var last := recv(|chunks|, maxReqSize - bytesRead - 1);
        && (outcome == Complete <==> chunks != [] && HeaderComplete(Received()))
        && (outcome == TooLarge <==> stopped && !HeaderComplete(Received()))
        && (outcome == Again <==> !stopped && last.WouldBlock?)
        && (outcome == PeerGone <==> !stopped && (last.Failed? || last.Ended?))
    {
      hide HeaderComplete, Joined, IncompleteUpTo, AnswersAre;
      chunks := [];
      ghost var start := Received();
      ghost var room := maxReqSize - bytesRead - 1;
      NothingReceived(start, recv, room);
      var k := 0;
      while true
        invariant bytesRead < maxReqSize && k == |chunks|
        invariant Received() == start + Joined(chunks) && AnswersAre(recv, room, chunks)
        invariant bytesRead == |start| + |Joined(chunks)|
        invariant forall j :: maxReqSize <= j < buffer.Length ==> buffer[j] == old(buffer[j])
        invariant chunks != [] ==> buffer[bytesRead] == 0 && bytesRead < maxReqSize - 1
        invariant IncompleteUpTo(start, chunks, |chunks|)
        decreases maxReqSize - bytesRead
      {
        NotYet(start, chunks);
        var answer := recv(k, maxReqSize - bytesRead - 1);
        match answer {
          case WouldBlock => return Again, chunks;
          case Failed => return PeerGone, chunks;
          case Ended => return PeerGone, chunks;
          case Data(bytes) =>
            Append(bytes);
            OneMoreChunk(start, chunks, bytes);
            OneMoreAnswer(recv, room, chunks, bytes);
            chunks := chunks + [bytes];
            k := k + 1;
            var found := FindHeaderEnd(buffer[..bytesRead]);
            if found { return Complete, chunks; }
            if bytesRead >= maxReqSize - 1 { return TooLarge, chunks; }
        }
      }
    }
  }

  ghost function Joined(chunks: seq<seq<Byte>>): seq<Byte> {
    if chunks == [] then [] else Joined(chunks[..|chunks| - 1]) + chunks[|chunks| - 1]
  }

  /** None of the first `n` chunks completed the header. */
  ghost predicate IncompleteUpTo(start: seq<Byte>, chunks: seq<seq<Byte>>, n: int)
    requires n <= |chunks|
  {
    forall i :: 0 < i <= n ==> !HeaderComplete(start + Joined(chunks[..i]))
  }

  /** Each chunk is the answer of its call, made with the room that the chunks before it left. */
  ghost predicate AnswersAre(recv: (nat, nat) -> Answer, room: nat, chunks: seq<seq<Byte>>) {
    forall i :: 0 <= i < |chunks| ==>
      |Joined(chunks[..i])| <= room && recv(i, room - |Joined(chunks[..i])|) == Data(chunks[i])
  }

  lemma NothingReceived(start: seq<Byte>, recv: (nat, nat) -> Answer, room: nat)
    ensures start + Joined([]) == start && IncompleteUpTo(start, [], 0) && IncompleteUpTo(start, [], -1)
    ensures AnswersAre(recv, room, []) && Joined([]) == []
  {
  }

  lemma OneMoreAnswer(recv: (nat, nat) -> Answer, room: nat, chunks: seq<seq<Byte>>, bytes: seq<Byte>)
    requires AnswersAre(recv, room, chunks) && |Joined(chunks)| <= room
    requires recv(|chunks|, room - |Joined(chunks)|) == Data(bytes)
    ensures AnswersAre(recv, room, chunks + [bytes])
  {
    var all := chunks + [bytes];
    assert all[..|chunks|] == chunks;
    assert forall i :: 0 <= i < |chunks| ==> all[..i] == chunks[..i];
  }

  lemma NotYet(start: seq<Byte>, chunks: seq<seq<Byte>>)
    requires IncompleteUpTo(start, chunks, |chunks|)
    ensures IncompleteUpTo(start, chunks, |chunks| - 1)
    ensures chunks != [] ==> !HeaderComplete(start + Joined(chunks))
  {
    assert chunks[..|chunks|] == chunks;
  }

  lemma OneMoreChunk(start: seq<Byte>, chunks: seq<seq<Byte>>, bytes: seq<Byte>)
    requires IncompleteUpTo(start, chunks, |chunks|)
    ensures
      var all := chunks + [bytes];
      && start + Joined(all) == (start + Joined(chunks)) + bytes && |Joined(all)| == |Joined(chunks)| + |bytes|
      && IncompleteUpTo(start, all, |chunks|)
      && (!HeaderComplete(start + Joined(all)) ==> IncompleteUpTo(start, all, |all|))
  {
    var all := chunks + [bytes];
    assert all[..|chunks|] == chunks && all[..|all|] == all;
    assert forall i :: 0 < i <= |chunks| ==> all[..i] == chunks[..i];
  }
}
