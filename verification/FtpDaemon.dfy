/** The FTP server's threads as the program writes them: the store buffer filled in place, the table of places
    searched and updated in place, and the queues. */
module FtpDaemon {
  import opened FtpModel
  import opened Options

  /** A client's store buffer and flags; and its upload's history, which is not in the program. */
  class StoreClient {
    const buffer: array<bv8>
    var storeBufferOffset: nat
    var isAppend: bool
    var isStoreEofSent: bool
    ghost var appending: bool
    ghost var before: Option<Bytes>
    ghost var received: Bytes
    ghost var writes: seq<Command>
    ghost var written: nat

    ghost predicate Valid()
      reads this
    {
      buffer.Length == IO_BUFFER_SIZE && storeBufferOffset < buffer.Length
    }

    ghost function Now(): Upload
      reads this, buffer
      requires Valid()
    {
      Upload(buffer[..storeBufferOffset], isAppend, isStoreEofSent, appending, before, received, writes, written)
    }

    constructor (append: bool, ghost file: Option<Bytes>)
      ensures Valid() && Now() == Begin(file, append) && fresh(buffer)
    {
      buffer := new bv8[IO_BUFFER_SIZE];
      storeBufferOffset, isAppend, isStoreEofSent := 0, append, false;
      appending, before, received, writes, written := append, file, [], [], 0;
    }

    /** What the data connection delivers, into the rest of the buffer. */
    method ReceiveData(data: Bytes)
      requires Valid() && storeBufferOffset + |data| <= buffer.Length
      modifies this`storeBufferOffset, this`received, buffer
      ensures storeBufferOffset == old(storeBufferOffset) + |data| <= buffer.Length
      ensures buffer[..storeBufferOffset] == old(buffer[..storeBufferOffset]) + data && received == old(received) + data
    {
      var offset := storeBufferOffset;
      forall k | 0 <= k < |data| {
        buffer[offset + k] := data[k];
      }
      storeBufferOffset := offset + |data|;
      received := received + data;
    }
  }

  class Daemon {
    var ioQueue: seq<Command>
    var serverQueue: seq<Result>
    const read: array<Slot>

    constructor ()
      ensures ioQueue == [] && serverQueue == [] && fresh(read) && read.Length == MAX_READ_STATE
      ensures forall i | 0 <= i < read.Length :: read[i].Free?
    {
      ioQueue, serverQueue := [], [];
      read := new Slot[MAX_READ_STATE](_ => Free);
    }

    // ---- The server thread ---------------------------------------------------------------------------

    method ProcessStoreData(client: StoreClient, c: nat, data: Bytes)
      requires client.Valid() && client.storeBufferOffset + |data| <= client.buffer.Length
      modifies this`ioQueue, client, client.buffer
      ensures client.Valid() && client.Now() == Received(c, old(client.Now()), data)
      ensures ioQueue == old(ioQueue) + client.writes[|old(client.writes)|..]
    {
      if client.isStoreEofSent {
        return;
      }
      client.ReceiveData(data);
      var isEof := |data| == 0;
      if isEof || client.buffer.Length <= client.storeBufferOffset {
        SendWrite(client, c, isEof);
      }
    }

    /** The buffer goes to the IO thread, and starts again. */
    method SendWrite(client: StoreClient, c: nat, isEof: bool)
      requires client.buffer.Length == IO_BUFFER_SIZE && client.storeBufferOffset <= client.buffer.Length && !client.isStoreEofSent
      modifies this`ioQueue, client`isAppend, client`storeBufferOffset, client`isStoreEofSent, client`writes
      ensures client.isAppend && client.storeBufferOffset == 0 && client.isStoreEofSent == isEof
      ensures var w := WriteCmd(c, old(client.isAppend), isEof, old(client.buffer[..client.storeBufferOffset]));
              ioQueue == old(ioQueue) + [w] && client.writes == old(client.writes) + [w]
    {
      var cmd := WriteCmd(c, client.isAppend, isEof, client.buffer[..client.storeBufferOffset]);
      ioQueue := ioQueue + [cmd];
      client.writes := client.writes + [cmd];
      client.isAppend := true;
      client.storeBufferOffset := 0;
      if isEof {
        client.isStoreEofSent := true;
      }
    }

    // ---- The IO thread -------------------------------------------------------------------------------

    /** The table and the queue to the server thread, with the clients' files. */
    ghost function Now(clients: seq<Client>): Server
      reads this, read
    {
      Server(clients, ioQueue, read[..], serverQueue)
    }

    /** One pass over all places in use. */
    method ProcessRead(clients: seq<Client>)
      requires forall i | 0 <= i < read.Length :: read[i].Used? ==> read[i].client < |clients|
      modifies this`serverQueue, read
      ensures Now(clients) == LoadAll(old(Now(clients)), read.Length)
    {
      ghost var was := Now(clients);
      var i := 0;
      while i < read.Length
        invariant 0 <= i <= read.Length
        invariant Now(clients) == LoadAll(was, i)
        invariant forall k | i <= k < read.Length :: read[k].Used? ==> read[k].client < |clients|
      {
        LoadPlace(clients, i);
        i := i + 1;
      }
    }

    /** The next piece for one place, if it is in use. */
    method LoadPlace(clients: seq<Client>, i: nat)
      requires i < read.Length && (read[i].Used? ==> read[i].client < |clients|)
      modifies this`serverQueue, read
      ensures Now(clients) == LoadStep(old(Now(clients)), i)
      ensures forall k | 0 <= k < read.Length && k != i :: read[k] == old(read[k])
    {
      if read[i].Free? {
        return;
      }
      var c, offset := read[i].client, read[i].offset;
      var error, buffer := LoadFromFile(clients[c].file, offset, IO_BUFFER_SIZE);
      var isEof := |buffer| < IO_BUFFER_SIZE;
      serverQueue := serverQueue + [ReadRes(c, error, isEof, buffer)];
      read[i] := if isEof then Free else Used(c, offset + |buffer|);
      assert read[..] == old(read[..])[i := read[i]];
    }

    /** The file system's part: as much of the file as there is from the offset, up to the size asked for. */
    method LoadFromFile(file: Option<Bytes>, offset: nat, size: nat) returns (error: bool, buffer: Bytes)
      requires size == IO_BUFFER_SIZE
      ensures error == file.None? && buffer == if file.Some? then Piece(file.value, offset) else []
    {
      error, buffer := file.None?, [];
      if file.Some? && offset <= |file.value| {
        buffer := file.value[offset..if offset + size < |file.value| then offset + size else |file.value|];
      }
    }

    /** Registers a file to be read in the first free place; without one, the server thread is told. */
    method ProcessCmdRead(clients: seq<Client>)
      requires ioQueue != [] && ioQueue[0].ReadCmd?
      modifies this, read
      ensures Now(clients) == IoStep(old(Now(clients)))
    {
      ghost var slots := read[..];
      var c := ioQueue[0].client;
      ioQueue := ioQueue[1..];
      var i := 0;
      while i < read.Length && !read[i].Free?
        invariant 0 <= i <= read.Length
        invariant FreeSlot(slots) == i + FreeSlot(slots[i..])
      {
        i := i + 1;
      }
      if i < read.Length {
        read[i] := Used(c, 0);
        assert read[..] == slots[i := Used(c, 0)];
      } else {
        serverQueue := serverQueue + [ReadRes(c, true, false, [])];
      }
    }

    /** Writes a buffer to a file, replacing it unless the buffer is to be appended, and creating it if there is
        none; an empty buffer does nothing of this. The last one is answered. */
    method ProcessCmdWrite(file: Option<Bytes>) returns (saved: Option<Bytes>)
      requires ioQueue != [] && ioQueue[0].WriteCmd?
      modifies this`ioQueue, this`serverQueue
      ensures var cmd := old(ioQueue)[0];
              saved == Saved(file, cmd) && ioQueue == old(ioQueue)[1..] &&
              serverQueue == if cmd.eof then old(serverQueue) + [WriteRes(cmd.client)] else old(serverQueue)
    {
      var cmd := ioQueue[0];
      ioQueue := ioQueue[1..];
      saved := file;
      if |cmd.data| > 0 {
        assert [] + cmd.data == cmd.data;
        if !cmd.append {
          saved := None;
        }
        saved := Some((if saved.Some? then saved.value else []) + cmd.data);
      }
      if cmd.eof {
        serverQueue := serverQueue + [WriteRes(cmd.client)];
      }
    }
  }

  /** A pass over the first places, one step of the IO thread each. */
  ghost function LoadAll(s: Server, n: nat): Server {
    if n == 0 then s else LoadStep(LoadAll(s, n - 1), n - 1)
  }

  function Pass(n: nat): seq<Action> {
    if n == 0 then [] else Pass(n - 1) + [LoadSlot(n - 1)]
  }

  lemma RunAppend(s: Server, actions: seq<Action>, a: Action)
    ensures Run(s, actions + [a]) == Step(Run(s, actions), a)
  {
    assert (actions + [a])[..|actions|] == actions;
  }

  /** So a pass is a run, and keeps what runs keep. */
  lemma {:induction false} PassIsARun(s: Server, n: nat)
    ensures LoadAll(s, n) == Run(s, Pass(n))
    decreases n
  {
    if n > 0 {
      var before := Run(s, Pass(n - 1));
      PassIsARun(s, n - 1);
      RunAppend(s, Pass(n - 1), LoadSlot(n - 1));
      assert Step(before, LoadSlot(n - 1)) == LoadStep(before, n - 1);
    }
  }
}
