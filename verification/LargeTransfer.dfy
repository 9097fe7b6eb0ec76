/**
 A sender that writes a long run of letters to a socket out of one short buffer, as far as the socket
 has room, and goes on whenever the socket calls back.
 */
module LargeTransfer {

  newtype uint8 = x: int | 0 <= x < 0x100
  newtype uint32 = x: int | 0 <= x < 0x1_0000_0000

  const totalTxBytes: uint32 := 2000000
  const writeSize: uint32 := 1040

  /** The byte that belongs at a place in the stream. */
  function Letter(k: nat): uint8 {
    (97 + k % 26) as uint8
  }

  /** The letters of the alphabet in turn. */
  lemma LettersAreTheAlphabet(k: nat)
    ensures Letter(k) as int as char == "abcdefghijklmnopqrstuvwxyz"[k % 26]
  {
    var i := k % 26;
    assert "abcdefghijklmnopqrstuvwxyz"[i] as int == 97 + i;
  }

  function Stream(n: nat): (s: seq<uint8>)
    ensures |s| == n
    ensures forall k :: 0 <= k < n ==> s[k] == Letter(k)
  {
    seq(n, k requires 0 <= k => Letter(k))
  }

  /** A buffer of this size, used over and over, has the right byte for this place. */
  predicate RepeatsAt(size: nat, k: nat)
    requires size > 0
  {
    Letter(k % size) == Letter(k)
  }

  /** A buffer can be used over and over exactly if the letters go into it a whole number of times. */
  lemma BufferRepeats(size: nat)
    requires size > 0
    ensures (forall k: nat :: RepeatsAt(size, k)) <==> size % 26 == 0
  {
    if size % 26 == 0 {
      forall k: nat ensures RepeatsAt(size, k) {
        Divided(k, size);
        SameLetter(size, k / size, k % size, k);
      }
    } else {
      Divided(size, size);
      assert !RepeatsAt(size, size);
    }
  }

  lemma Divided(k: nat, size: nat)
    requires size > 0
    ensures k == (k / size) * size + k % size
    ensures k == size ==> k % size == 0
  {
  }

  lemma {:induction false} SameLetter(size: nat, q: nat, r: nat, k: nat)
    requires size % 26 == 0 && k == q * size + r
    ensures Letter(k) == Letter(r)
  {
    if q > 0 {
      assert k - size == (q - 1) * size + r;
      SameLetter(size, q - 1, r, k - size);
      LossShows(size, k - size);
    }
  }

  /** Bytes lost in between show at every later place, unless whole alphabets were lost. */
  lemma LossShows(lost: nat, k: nat)
    ensures Letter(k + lost) == Letter(k) <==> lost % 26 == 0
  {
  }

  /** However much of a write is accepted, the stream goes on where it was. */
  lemma PieceContinues(n: nat, amount: nat)
    requires n % 1040 + amount <= 1040
    ensures Stream(n) + Stream(1040)[n % 1040..n % 1040 + amount] == Stream(n + amount)
  {
    var piece := Stream(1040)[n % 1040..n % 1040 + amount];
    forall j | 0 <= j < amount ensures piece[j] == Letter(n + j) {
      SameLetter(1040, n / 1040, n % 1040 + j, n + j);
    }
    forall k | 0 <= k < n + amount ensures (Stream(n) + piece)[k] == Letter(k) {
      if k >= n {
        assert (Stream(n) + piece)[k] == piece[k - n];
      }
    }
  }

  /** A write: how much was accepted before it, how much room there was, and the part of the buffer offered. */
  datatype Offer = Offer(done: nat, room: nat, offset: nat, size: nat)

  /** The part of the buffer that comes next, as far as buffer, room and what is left to send allow. */
  predicate IsNextPiece(o: Offer) {
    && o.offset == o.done % 1040
    && 0 < o.size <= 1040 - o.offset && o.size <= 2000000 - o.done && o.size <= o.room
    && (o.size == 1040 - o.offset || o.size == 2000000 - o.done || o.size == o.room)
  }

  /** All writes after some earlier ones. */
  ghost predicate NextPieces(socket: Socket, earlier: seq<Offer>)
    reads socket
  {
    earlier <= socket.offers && forall k :: |earlier| <= k < |socket.offers| ==> IsNextPiece(socket.offers[k])
  }

  /**
   The socket: how much of a write it accepts, a nonpositive amount being a refusal, and how much room
   it has after the write are up to it.  Between calls acknowledgements change the room as well.
   */
  class Socket {
    /** What has been offered to it, whether or not it was accepted. */
    ghost var offers: seq<Offer>
    const accepts: nat -> int
    const roomAfter: nat -> uint32
    var available: uint32
    var sends: nat
    var accepted: seq<uint8>
    var refused: bool
    var closes: nat

    constructor (available: uint32, roomAfter: nat -> uint32, accepts: nat -> int)
      ensures sends == 0 && accepted == [] && !refused && closes == 0 && offers == []
      ensures this.available == available && this.roomAfter == roomAfter && this.accepts == accepts
    {
      this.available, this.roomAfter, this.accepts := available, roomAfter, accepts;
      sends, accepted, refused, closes := 0, [], false, 0;
      offers := [];
    }

    function GetTxAvailable(): uint32
      reads this
    {
      available
    }

    /** The network frees some of the buffer, or takes it. */
    method Acknowledge(room: uint32)
      modifies this`available
      ensures available == room
    {
      available := room;
    }

    /** Accepts the beginning of what it is offered, or nothing. */
    method Send(data: array<uint8>, offset: uint32, size: uint32) returns (amount: int)
      requires size > 0 && offset as int + size as int <= data.Length
      modifies this`sends, this`accepted, this`refused, this`available, this`offers
      ensures offers == old(offers) + [Offer(old(|accepted|), old(available) as nat, offset as nat, size as nat)]
      ensures amount == -1 || 1 <= amount <= size as int
      ensures sends == old(sends) + 1 && refused == (amount < 0) && (refused <==> accepts(old(sends)) <= 0)
      ensures accepted == old(accepted)
                          + if amount < 0 then [] else data[offset as int..offset as int + amount]
    {
      offers := offers + [Offer(|accepted|, available as nat, offset as nat, size as nat)];
      amount := accepts(sends);
      refused := amount <= 0;
      available := roomAfter(sends);
      sends := sends + 1;
      if refused {
        amount := -1;
      } else {
        amount := if amount < size as int then amount else size as int;
        accepted := accepted + data[offset as int..offset as int + amount];
      }
    }

    method Close()
      modifies this`closes
      ensures closes == old(closes) + 1
    {
      closes := closes + 1;
    }
  }

  /** The socket never refuses a write, and has some room whenever it calls back. */
  ghost predicate Generous(socket: Socket, callbacks: seq<uint32>) {
    (forall k :: socket.accepts(k) > 0) && forall i :: 0 <= i < |callbacks| ==> callbacks[i] > 0
  }

  class Sender {
    const data: array<uint8>
    var currentTxBytes: uint32

    /** What the socket has accepted is the beginning of the stream, and it is closed only after all of it. */
    ghost predicate Valid(socket: Socket)
      reads this, data, socket
    {
      && data[..] == Stream(writeSize as nat)
      && currentTxBytes <= totalTxBytes
      && socket.accepted == Stream(currentTxBytes as nat)
      && (socket.closes > 0 ==> currentTxBytes == totalTxBytes)
    }

    constructor ()
      ensures fresh(data) && currentTxBytes == 0 && data[..] == Stream(writeSize as nat)
    {
      data := new uint8[writeSize];
      currentTxBytes := 0;
      new;
      FillBuffer();
    }

    method FillBuffer()
      requires data.Length == writeSize as int
      modifies data
      ensures data[..] == Stream(writeSize as nat)
    {
      var i: uint32 := 0;
      while i < writeSize
        invariant i <= writeSize
        invariant forall k :: 0 <= k < i as int ==> data[k] == Letter(k)
      {
        var m := (97 + i % 26) % 128;
        data[i] := m as uint8;
        i := i + 1;
      }
    }

    /** Starting the flow already sends what the socket takes. */
    method StartFlow(socket: Socket)
      requires Valid(socket)
      modifies this`currentTxBytes, socket
      ensures Valid(socket)
      ensures old(socket.accepted) <= socket.accepted && NextPieces(socket, old(socket.offers))
      ensures old(currentTxBytes) < totalTxBytes && old(socket.available) > 0 ==>
                currentTxBytes > old(currentTxBytes) || socket.refused
      ensures socket.refused ==> old(socket.refused) || exists k :: socket.accepts(k) <= 0
      ensures currentTxBytes == totalTxBytes || socket.GetTxAvailable() == 0 || socket.refused
      ensures socket.closes == old(socket.closes) + if currentTxBytes == totalTxBytes then 1 else 0
    {
      WriteUntilBufferFull(socket, socket.GetTxAvailable());
    }

    /**
     A run of the program: the flow is started, and whenever the socket has told that its room changed,
     the sender is called back.  After any sequence of callbacks what was accepted is the beginning of
     the stream, and the socket has been closed exactly if that is all of it; and a socket that never
     refuses gets everything once it has called back often enough with some room.
     */
    method Transfer(socket: Socket, callbacks: seq<uint32>)
      requires Valid(socket) && socket.closes == 0 && !socket.refused
      modifies this`currentTxBytes, socket
      ensures Valid(socket)
      ensures socket.closes > 0 <==> |socket.accepted| == 2000000
      ensures NextPieces(socket, old(socket.offers))
      ensures |socket.accepted| == 2000000 || socket.GetTxAvailable() == 0 || socket.refused
      ensures old(currentTxBytes) < totalTxBytes && old(socket.available) > 0 ==>
                currentTxBytes > old(currentTxBytes) || exists k :: socket.accepts(k) <= 0
      ensures Generous(socket, callbacks) && |callbacks| >= 2000000 ==> socket.accepted == Stream(2000000)
    {
      StartFlow(socket);
      for i := 0 to |callbacks|
        invariant Valid(socket)
        invariant socket.closes > 0 <==> currentTxBytes == totalTxBytes
        invariant NextPieces(socket, old(socket.offers))
        invariant currentTxBytes == totalTxBytes || socket.GetTxAvailable() == 0 || socket.refused
        invariant socket.refused ==> exists k :: socket.accepts(k) <= 0
        invariant old(currentTxBytes) < totalTxBytes && old(socket.available) > 0 ==>
                    currentTxBytes > old(currentTxBytes) || exists k :: socket.accepts(k) <= 0
        invariant Generous(socket, callbacks) && currentTxBytes < totalTxBytes ==> i <= currentTxBytes as int
      {
        socket.Acknowledge(callbacks[i]);
        WriteUntilBufferFull(socket, callbacks[i]);
      }
    }

    /** One write of the next piece of the buffer. */
    method WriteOnce(socket: Socket) returns (sent: bool)
      requires Valid(socket) && currentTxBytes < totalTxBytes && socket.available > 0
      modifies this`currentTxBytes, socket`sends, socket`accepted, socket`refused, socket`available, socket`offers
      ensures Valid(socket)
      ensures old(socket.accepted) <= socket.accepted
      ensures |socket.offers| == |old(socket.offers)| + 1 && NextPieces(socket, old(socket.offers))
      ensures socket.sends == old(socket.sends) + 1 && sent == !socket.refused
      ensures if sent then currentTxBytes > old(currentTxBytes) else currentTxBytes == old(currentTxBytes)
      ensures socket.refused ==> exists k :: socket.accepts(k) <= 0
    {
      var left := totalTxBytes - currentTxBytes;
      var dataOffset := currentTxBytes % writeSize;
      var toWrite := writeSize - dataOffset;
      toWrite := Min(toWrite, left);
      toWrite := Min(toWrite, socket.GetTxAvailable());
      var amountSent := socket.Send(data, dataOffset, toWrite);
      if amountSent < 0 {
        return false;
      }
      PieceContinues(currentTxBytes as nat, amountSent);
      currentTxBytes := currentTxBytes + amountSent as uint32;
      return true;
    }

    /**
     Stops only when all is accepted, which closes the socket, or when the socket has no room or refuses;
     every write but a last refused one gets at least one byte across.
     */
    method WriteUntilBufferFull(socket: Socket, txSpace: uint32)
      requires Valid(socket)
      modifies this`currentTxBytes, socket
      ensures Valid(socket)
      ensures old(socket.accepted) <= socket.accepted && NextPieces(socket, old(socket.offers))
      ensures currentTxBytes >= old(currentTxBytes)
      ensures old(currentTxBytes) < totalTxBytes && old(socket.available) > 0 ==>
                currentTxBytes > old(currentTxBytes) || socket.refused
      ensures socket.refused ==> old(socket.refused) || exists k :: socket.accepts(k) <= 0
      ensures currentTxBytes == totalTxBytes || socket.GetTxAvailable() == 0 || socket.refused
      ensures socket.closes == old(socket.closes) + if currentTxBytes == totalTxBytes then 1 else 0
      ensures socket.sends - old(socket.sends) <= currentTxBytes as int - old(currentTxBytes) as int + 1
    {
      while currentTxBytes < totalTxBytes && socket.GetTxAvailable() > 0
        invariant Valid(socket)
        invariant old(socket.accepted) <= socket.accepted && NextPieces(socket, old(socket.offers))
        invariant currentTxBytes >= old(currentTxBytes)
        invariant socket.closes == old(socket.closes)
        invariant socket.sends - old(socket.sends) <= currentTxBytes as int - old(currentTxBytes) as int
        invariant socket.refused ==> old(socket.refused)
        invariant currentTxBytes > old(currentTxBytes) || (currentTxBytes == old(currentTxBytes)
                  && socket.available == old(socket.available))
        decreases totalTxBytes - currentTxBytes
      {
        var sent := WriteOnce(socket);
        if !sent {
          return;
        }
      }
      if currentTxBytes >= totalTxBytes {
        socket.Close();
      }
    }
  }

  function Min(a: uint32, b: uint32): uint32 {
    if a < b then a else b
  }
}
