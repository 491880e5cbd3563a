/** File transfers of the FTP server: the server thread, which talks to the clients, and the IO thread, which reads
    and writes their files, joined by two FIFO queues. No queue is ever full and no file operation fails; each
    client's transfers are of a file of its own. A run is any sequence of actions. */
module FtpModel {
  import opened Options

  const IO_BUFFER_SIZE: nat := 250000
  const MAX_CLIENTS: nat := 4
  const MAX_READ_STATE: nat := MAX_CLIENTS

  type Bytes = seq<bv8>

  /** To the IO thread. */
  datatype Command = ReadCmd(client: nat) | WriteCmd(client: nat, append: bool, eof: bool, data: Bytes)

  /** To the server thread. */
  datatype Result = ReadRes(client: nat, error: bool, eof: bool, data: Bytes) | WriteRes(client: nat)

  /** A place in the IO thread's table of files being read. */
  datatype Slot = Free | Used(client: nat, offset: nat)

  /** An upload: the data in the store buffer, and the flags of the client. Then, not in the program: what the
      command asked for, the file before, and all that has been received, sent to the IO thread, and written. */
  datatype Upload = Upload(
    buffer: Bytes,
    append: bool,
    eofSent: bool,
    appending: bool,
    before: Option<Bytes>,
    received: Bytes,
    writes: seq<Command>,
    written: nat
  )

  /** A download: whether the IO thread has been asked; what has been sent to the client, and in how many pieces. */
  datatype Download = Download(started: bool, sent: Bytes, chunks: nat)

  datatype Phase = Ready | Storing | Stored | Retrieving | Retrieved | Failed

  /** A client, with the file it transfers, if that exists. */
  datatype Client = Client(phase: Phase, file: Option<Bytes>, up: Upload, down: Download)

  datatype Server = Server(clients: seq<Client>, ioQ: seq<Command>, slots: seq<Slot>, serverQ: seq<Result>)

  datatype Action =
    | Stor(client: nat, append: bool)
    | Retr(client: nat)
    | Receive(client: nat, data: Bytes)
    | LoadSlot(slot: nat)
    | IoTakes
    | ServerTakes

  const NO_DOWNLOAD: Download := Download(false, [], 0)

  predicate Starts(s: Server) {
    |s.clients| == MAX_CLIENTS && |s.slots| == MAX_READ_STATE && s.ioQ == [] && s.serverQ == [] &&
    (forall i | 0 <= i < |s.slots| :: s.slots[i].Free?) &&
    (forall c | 0 <= c < |s.clients| :: s.clients[c].phase.Ready? && !s.clients[c].down.started)
  }

  /** A client that has had its reply may ask for the next transfer. */
  predicate Waiting(p: Phase) {
    !p.Storing? && !p.Retrieving?
  }

  // ---- Upload ----------------------------------------------------------------------------------------

  function Begin(file: Option<Bytes>, append: bool): Upload {
    Upload([], append, false, append, file, [], [], 0)
  }

  /** Data of the data connection, at most what the buffer has room for; none at all is the end of the file. A full
      buffer, or the end, is passed to the IO thread; later writes append. */
  function Received(c: nat, u: Upload, data: Bytes): Upload {
    if u.eofSent || |u.buffer| + |data| > IO_BUFFER_SIZE then u
    else
      var buffer, eof := u.buffer + data, data == [];
      var all := u.received + data;
      if eof || |buffer| >= IO_BUFFER_SIZE then
        u.(buffer := [], append := true, eofSent := eof, received := all,
           writes := u.writes + [WriteCmd(c, u.append, eof, buffer)])
      else u.(buffer := buffer, received := all)
  }

  /** What there is to append to. */
  function Contents(file: Option<Bytes>): Bytes {
    if file.Some? then file.value else []
  }

  /** Saving deletes the file first unless it is to be appended to, and creates it if there is none; nothing is
      not saved. */
  function Saved(file: Option<Bytes>, w: Command): Option<Bytes> {
    if !w.WriteCmd? || w.data == [] then file else if w.append then Some(Contents(file) + w.data) else Some(w.data)
  }

  // ---- Download --------------------------------------------------------------------------------------

  function Min(a: nat, b: nat): nat {
    if a < b then a else b
  }

  /** A piece of the file at an offset. */
  function Piece(file: Bytes, offset: nat): Bytes {
    if offset <= |file| then file[offset..Min(offset + IO_BUFFER_SIZE, |file|)] else []
  }

  /** The first place that is not in use. */
  function FreeSlot(slots: seq<Slot>): nat {
    if slots == [] || slots[0].Free? then 0 else 1 + FreeSlot(slots[1..])
  }

  // ---- Actions ---------------------------------------------------------------------------------------

  function StorStep(s: Server, c: nat, append: bool): Server {
    if c < |s.clients| && Waiting(s.clients[c].phase) then
      var cl := s.clients[c];
      s.(clients := s.clients[c := cl.(phase := Storing, up := Begin(cl.file, append))])
    else s
  }

  /** Only a file that exists is asked for. */
  function RetrStep(s: Server, c: nat): Server {
    if c < |s.clients| && Waiting(s.clients[c].phase) && !s.clients[c].down.started && s.clients[c].file.Some? then
      s.(clients := s.clients[c := s.clients[c].(phase := Retrieving, down := Download(true, [], 0))],
         ioQ := s.ioQ + [ReadCmd(c)])
    else s
  }

  function ReceiveStep(s: Server, c: nat, data: Bytes): Server {
    if c < |s.clients| && s.clients[c].phase.Storing? then
      var u := Received(c, s.clients[c].up, data);
      s.(clients := s.clients[c := s.clients[c].(up := u)],
         ioQ := if |u.writes| > |s.clients[c].up.writes| then s.ioQ + [u.writes[|u.writes| - 1]] else s.ioQ)
    else s
  }

  /** The IO thread reads the next piece for one of its places, and frees the place at the end of the file. Reading
      a file that does not exist is an error. */
  function LoadStep(s: Server, i: nat): Server {
    if i < |s.slots| && s.slots[i].Used? && s.slots[i].client < |s.clients| then
      var c, offset := s.slots[i].client, s.slots[i].offset;
      var file := s.clients[c].file;
      var piece := if file.Some? then Piece(file.value, offset) else [];
      var eof := |piece| < IO_BUFFER_SIZE;
      s.(slots := s.slots[i := if eof then Free else Used(c, offset + |piece|)],
         serverQ := s.serverQ + [ReadRes(c, file.None?, eof, piece)])
    else s
  }

  function IoStep(s: Server): Server {
    if s.ioQ == [] then s
    else
      var cmd, rest := s.ioQ[0], s.(ioQ := s.ioQ[1..]);
      match cmd
      case ReadCmd(c) =>
        var i := FreeSlot(s.slots);
        if i < |s.slots| then rest.(slots := s.slots[i := Used(c, 0)])
        else rest.(serverQ := s.serverQ + [ReadRes(c, true, false, [])])
      case WriteCmd(c, _, eof, _) =>
        if c >= |s.clients| then rest
        else
          var cl := s.clients[c];
          rest.(clients := s.clients[c := cl.(file := Saved(cl.file, cmd), up := cl.up.(written := cl.up.written + 1))],
                serverQ := if eof then s.serverQ + [WriteRes(c)] else s.serverQ)
  }

  /** The server thread sends a piece to the client, and its reply at the end. */
  function ServerStep(s: Server): Server {
    if s.serverQ == [] || s.serverQ[0].client >= |s.clients| then s
    else
      var res, rest := s.serverQ[0], s.(serverQ := s.serverQ[1..]);
      var cl := s.clients[res.client];
      var next := match res
                  case ReadRes(_, error, eof, data) => Sent(cl, error, eof, data)
                  case WriteRes(_) => cl.(phase := Stored, up := cl.up.(buffer := [], eofSent := false));
      rest.(clients := s.clients[res.client := next])
  }

  function Sent(cl: Client, error: bool, eof: bool, data: Bytes): Client {
    var d := Download(cl.down.started && !eof && !error, cl.down.sent + data, cl.down.chunks + 1);
    cl.(phase := if error then Failed else if eof then Retrieved else cl.phase, down := d)
  }

  function Step(s: Server, a: Action): Server {
    match a
    case Stor(c, append) => StorStep(s, c, append)
    case Retr(c) => RetrStep(s, c)
    case Receive(c, data) => ReceiveStep(s, c, data)
    case LoadSlot(i) => LoadStep(s, i)
    case IoTakes => IoStep(s)
    case ServerTakes => ServerStep(s)
  }

  function Run(s: Server, actions: seq<Action>): Server {
    if actions == [] then s else Step(Run(s, actions[..|actions| - 1]), actions[|actions| - 1])
  }
}
