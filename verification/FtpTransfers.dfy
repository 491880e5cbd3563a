/** All clients' transfers together: whatever the order of the threads' steps, each client's upload or download is
    kept apart from the others', and ends with the whole of its data where it belongs and one reply. */
module FtpTransfers {
  import opened Folding
  import opened FtpModel
  import opened FtpUpload
  import opened Options

  // ---- What of the queues and places is one client's --------------------------------------------------

  function CmdsOf(q: seq<Command>, c: nat): seq<Command> {
    if q == [] then [] else if q[0].client == c then [q[0]] + CmdsOf(q[1..], c) else CmdsOf(q[1..], c)
  }

  function ResultsOf(q: seq<Result>, c: nat): seq<Result> {
    if q == [] then [] else if q[0].client == c then [q[0]] + ResultsOf(q[1..], c) else ResultsOf(q[1..], c)
  }

  /** The offsets in the places of a client. */
  function OffsetsOf(slots: seq<Slot>, c: nat): seq<nat> {
    if slots == [] then []
    else if slots[0].Used? && slots[0].client == c then [slots[0].offset] + OffsetsOf(slots[1..], c)
    else OffsetsOf(slots[1..], c)
  }

  lemma {:induction false} CmdsAppend(q: seq<Command>, x: Command, c: nat)
    ensures CmdsOf(q + [x], c) == if x.client == c then CmdsOf(q, c) + [x] else CmdsOf(q, c)
    decreases |q|
  {
    if q == [] {
      assert q + [x] == [x];
    } else {
      assert (q + [x])[1..] == q[1..] + [x];
      CmdsAppend(q[1..], x, c);
    }
  }

  lemma {:induction false} ResultsAppend(q: seq<Result>, x: Result, c: nat)
    ensures ResultsOf(q + [x], c) == if x.client == c then ResultsOf(q, c) + [x] else ResultsOf(q, c)
    decreases |q|
  {
    if q == [] {
      assert q + [x] == [x];
    } else {
      assert (q + [x])[1..] == q[1..] + [x];
      ResultsAppend(q[1..], x, c);
    }
  }

  /** A place changes: for its client, and for the one that gets it. */
  lemma {:induction false} OffsetsUpdate(slots: seq<Slot>, i: nat, x: Slot, c: nat)
    requires i < |slots|
    ensures var mine, yours := slots[i].Used? && slots[i].client == c, x.Used? && x.client == c;
            (!mine && !yours ==> OffsetsOf(slots[i := x], c) == OffsetsOf(slots, c)) &&
            (mine && |OffsetsOf(slots, c)| == 1 ==>
               OffsetsOf(slots, c) == [slots[i].offset] && OffsetsOf(slots[i := x], c) == if yours then [x.offset] else []) &&
            (mine ==> OffsetsOf(slots, c) != []) &&
            (!mine && yours && OffsetsOf(slots, c) == [] ==> OffsetsOf(slots[i := x], c) == [x.offset])
    decreases |slots|
  {
    if i == 0 {
      assert slots[i := x][1..] == slots[1..];
    } else {
      assert slots[i := x][1..] == slots[1..][i - 1 := x];
      OffsetsUpdate(slots[1..], i - 1, x, c);
    }
  }

  // ---- What each client's transfer keeps ---------------------------------------------------------------

  /** What results carry, taken together. */
  function Data(results: seq<Result>): Bytes {
    if results == [] then []
    else (if results[0].ReadRes? then results[0].data else []) + Data(results[1..])
  }

  predicate StoringOk(c: nat, cl: Client, cmds: seq<Command>, offsets: seq<nat>, results: seq<Result>) {
    var u := cl.up;
    UploadOk(c, u) && u.written <= |u.writes| && cmds == u.writes[u.written..] && offsets == [] && !cl.down.started &&
    results == (if u.eofSent && u.written == |u.writes| then [WriteRes(c)] else []) &&
    cl.file == Applied(u.before, u.writes[..u.written])
  }

  /** A piece that is not the last. */
  predicate Middle(c: nat, r: Result) {
    r.ReadRes? && r.client == c && !r.error && !r.eof && |r.data| == IO_BUFFER_SIZE
  }

  predicate LastPiece(c: nat, r: Result) {
    r.ReadRes? && r.client == c && !r.error && r.eof
  }

  /** Before the IO thread has taken the request; while it reads; and when it is done. */
  predicate RetrievingOk(c: nat, cl: Client, cmds: seq<Command>, offsets: seq<nat>, results: seq<Result>) {
    var d := cl.down;
    d.started && cl.file.Some? &&
    if cmds != [] then cmds == [ReadCmd(c)] && offsets == [] && results == [] && d.sent == [] && d.chunks == 0
    else if offsets != [] then
      |offsets| == 1 && offsets[0] <= |cl.file.value| && d.sent + Data(results) == cl.file.value[..offsets[0]] &&
      offsets[0] == (d.chunks + |results|) * IO_BUFFER_SIZE && forall i | 0 <= i < |results| :: Middle(c, results[i])
    else
      results != [] && d.sent + Data(results) == cl.file.value &&
      d.chunks + |results| == |cl.file.value| / IO_BUFFER_SIZE + 1 && LastPiece(c, results[|results| - 1]) &&
      forall i | 0 <= i < |results| - 1 :: Middle(c, results[i])
  }

  /** Between transfers, with the last one complete. */
  predicate WaitingOk(c: nat, cl: Client, cmds: seq<Command>, offsets: seq<nat>, results: seq<Result>) {
    cmds == [] && offsets == [] && results == [] && !cl.down.started && !cl.phase.Failed? &&
    (cl.phase.Stored? ==> cl.file == Final(cl.up.before, cl.up.appending, cl.up.received) &&
                          |cl.up.writes| == |cl.up.received| / IO_BUFFER_SIZE + 1 &&
                          WritesFit(c, cl.up.writes, cl.up.appending, true)) &&
    (cl.phase.Retrieved? ==> cl.file == Some(cl.down.sent) && cl.down.chunks == |cl.down.sent| / IO_BUFFER_SIZE + 1)
  }

  predicate ClientOk(c: nat, cl: Client, cmds: seq<Command>, offsets: seq<nat>, results: seq<Result>) {
    match cl.phase
    case Storing => StoringOk(c, cl, cmds, offsets, results)
    case Retrieving => RetrievingOk(c, cl, cmds, offsets, results)
    case _ => WaitingOk(c, cl, cmds, offsets, results)
  }

  /** The same, kept folded. */
  ghost predicate ClientIs(c: nat, cl: Client, cmds: seq<Command>, offsets: seq<nat>, results: seq<Result>) {
    forall g: nat :: Guard(g) ==> ClientOk(c, cl, cmds, offsets, results)
  }

  ghost predicate Mine(s: Server, c: nat)
    requires c < |s.clients|
  {
    ClientIs(c, s.clients[c], CmdsOf(s.ioQ, c), OffsetsOf(s.slots, c), ResultsOf(s.serverQ, c))
  }

  /** All messages and places belong to clients, and each client's are as they should be. */
  ghost predicate Inv(s: Server) {
    |s.clients| == MAX_CLIENTS && |s.slots| == MAX_READ_STATE &&
    (forall i | 0 <= i < |s.ioQ| :: s.ioQ[i].client < MAX_CLIENTS) &&
    (forall i | 0 <= i < |s.serverQ| :: s.serverQ[i].client < MAX_CLIENTS) &&
    (forall i | 0 <= i < |s.slots| :: s.slots[i].Used? ==> s.slots[i].client < MAX_CLIENTS) &&
    forall c | 0 <= c < MAX_CLIENTS :: Mine(s, c)
  }

  // ---- Steps of an upload ------------------------------------------------------------------------------

  lemma StoreBegins(c: nat, cl: Client, append: bool)
    requires WaitingOk(c, cl, [], [], [])
    ensures StoringOk(c, cl.(phase := Storing, up := Begin(cl.file, append)), [], [], [])
  {
  }

  lemma StoreReceives(c: nat, cl: Client, cmds: seq<Command>, offsets: seq<nat>, results: seq<Result>, data: Bytes)
    requires StoringOk(c, cl, cmds, offsets, results)
    ensures var u := Received(c, cl.up, data);
            StoringOk(c, cl.(up := u), cmds + u.writes[|cl.up.writes|..], offsets, results)
  {
    ReceivedKeeps(c, cl.up, data);
    var u := Received(c, cl.up, data);
    assert u.writes[..u.written] == cl.up.writes[..u.written];
    assert u.writes[u.written..] == cl.up.writes[u.written..] + u.writes[|cl.up.writes|..];
  }

  /** A client with one more of its writes in its file. */
  function Written(cl: Client, w: Command): Client {
    cl.(file := Saved(cl.file, w), up := cl.up.(written := cl.up.written + 1))
  }

  lemma StoreWrites(c: nat, cl: Client, cmds: seq<Command>, offsets: seq<nat>, results: seq<Result>)
    requires StoringOk(c, cl, cmds, offsets, results) && cmds != []
    ensures cmds[0].WriteCmd? && StoringOk(c, Written(cl, cmds[0]), cmds[1..], offsets,
                                           if cmds[0].eof then results + [WriteRes(c)] else results)
  {
    var u, n := cl.up, cl.up.written;
    WriteIsLast(c, u, n);
    assert u.writes[n..][0] == u.writes[n] && u.writes[n..][1..] == u.writes[n + 1..];
    assert u.writes[..n + 1] == u.writes[..n] + [u.writes[n]];
    AppliedAppend(u.before, u.writes[..n], u.writes[n]);
    UploadOkWritten(c, u, n + 1);
  }

  lemma UploadOkWritten(c: nat, u: Upload, n: nat)
    requires UploadOk(c, u)
    ensures UploadOk(c, u.(written := n))
  {
  }

  /** Only the last write can be the end. */
  lemma WriteIsLast(c: nat, u: Upload, n: nat)
    requires UploadOk(c, u) && n < |u.writes|
    ensures u.writes[n].WriteCmd? && (u.writes[n].eof <==> u.eofSent && n == |u.writes| - 1)
  {
    assert WriteFits(c, u.writes[n], n == 0, u.eofSent && n == |u.writes| - 1, u.appending);
  }

  lemma StoreEnds(c: nat, cl: Client, cmds: seq<Command>, offsets: seq<nat>, results: seq<Result>)
    requires StoringOk(c, cl, cmds, offsets, results) && results != []
    ensures results == [WriteRes(c)]
    ensures WaitingOk(c, cl.(phase := Stored, up := cl.up.(buffer := [], eofSent := false)), cmds, offsets, results[1..])
  {
    assert cl.up.writes[..cl.up.written] == cl.up.writes;
    UploadMakesFile(c, cl.up);
  }

  // ---- Steps of a download -----------------------------------------------------------------------------

  lemma {:induction false} DataAppend(results: seq<Result>, r: Result)
    requires r.ReadRes?
    ensures Data(results + [r]) == Data(results) + r.data
    decreases |results|
  {
    if results == [] {
      assert results + [r] == [r];
      assert r.data + [] == r.data;
    } else {
      assert (results + [r])[1..] == results[1..] + [r];
      DataAppend(results[1..], r);
      var head := if results[0].ReadRes? then results[0].data else [];
      assert head + Data(results[1..]) + r.data == head + (Data(results[1..]) + r.data);
    }
  }

  lemma RetrieveTakes(c: nat, cl: Client, cmds: seq<Command>, offsets: seq<nat>, results: seq<Result>)
    requires RetrievingOk(c, cl, cmds, offsets, results) && cmds != []
    ensures cmds == [ReadCmd(c)] && offsets == [] && RetrievingOk(c, cl, [], [0], results)
  {
    assert cl.down.sent + Data(results) == cl.file.value[..0];
  }

  lemma DataGrows(sent: Bytes, results: seq<Result>, r: Result)
    requires r.ReadRes?
    ensures sent + Data(results + [r]) == (sent + Data(results)) + r.data
  {
    DataAppend(results, r);
    assert sent + (Data(results) + r.data) == (sent + Data(results)) + r.data;
  }

  lemma PieceIs(file: Bytes, offset: nat)
    requires offset <= |file|
    ensures var piece := Piece(file, offset);
            |piece| <= IO_BUFFER_SIZE && offset + |piece| <= |file| && file[..offset + |piece|] == file[..offset] + piece &&
            (|piece| < IO_BUFFER_SIZE ==> offset + |piece| == |file| && file[..offset] + piece == file)
  {
    assert file[..|file|] == file;
  }

  lemma RetrieveLoads(c: nat, cl: Client, cmds: seq<Command>, offset: nat, results: seq<Result>)
    requires RetrievingOk(c, cl, cmds, [offset], results)
    ensures var piece := Piece(cl.file.value, offset);
            var eof := |piece| < IO_BUFFER_SIZE;
            RetrievingOk(c, cl, cmds, if eof then [] else [offset + |piece|], results + [ReadRes(c, false, eof, piece)])
  {
    PieceIs(cl.file.value, offset);
    var piece := Piece(cl.file.value, offset);
    DataGrows(cl.down.sent, results, ReadRes(c, false, |piece| < IO_BUFFER_SIZE, piece));
  }

  lemma DataMoves(sent: Bytes, results: seq<Result>)
    requires results != [] && results[0].ReadRes?
    ensures sent + Data(results) == (sent + results[0].data) + Data(results[1..])
  {
  }

  lemma RetrieveSendsMiddle(c: nat, cl: Client, cmds: seq<Command>, offsets: seq<nat>, results: seq<Result>)
    requires RetrievingOk(c, cl, cmds, offsets, results) && results != [] && (offsets != [] || |results| > 1)
    ensures Middle(c, results[0]) && RetrievingOk(c, Sent(cl, false, false, results[0].data), cmds, offsets, results[1..])
  {
    assert Middle(c, results[0]);
    DataMoves(cl.down.sent, results);
  }

  lemma RetrieveSendsLast(c: nat, cl: Client, cmds: seq<Command>, offsets: seq<nat>, results: seq<Result>)
    requires RetrievingOk(c, cl, cmds, offsets, results) && |results| == 1 && offsets == []
    ensures LastPiece(c, results[0]) && WaitingOk(c, Sent(cl, false, true, results[0].data), cmds, offsets, results[1..])
  {
    DataMoves(cl.down.sent, results);
    assert (cl.down.sent + results[0].data) + [] == cl.down.sent + results[0].data;
  }

  lemma RetrieveSends(c: nat, cl: Client, cmds: seq<Command>, offsets: seq<nat>, results: seq<Result>)
    requires RetrievingOk(c, cl, cmds, offsets, results) && results != []
    ensures var r := results[0];
            r.ReadRes? && !r.error && r.eof == (offsets == [] && |results| == 1) &&
            var sent := Sent(cl, r.error, r.eof, r.data);
            if r.eof then WaitingOk(c, sent, cmds, offsets, results[1..]) else RetrievingOk(c, sent, cmds, offsets, results[1..])
  {
    if offsets == [] && |results| == 1 {
      RetrieveSendsLast(c, cl, cmds, offsets, results);
    } else {
      RetrieveSendsMiddle(c, cl, cmds, offsets, results);
    }
  }

  // ---- There is always a place ---------------------------------------------------------------------------

  /** The places in use, client by client. */
  function InUse(slots: seq<Slot>): nat {
    |OffsetsOf(slots, 0)| + |OffsetsOf(slots, 1)| + |OffsetsOf(slots, 2)| + |OffsetsOf(slots, 3)|
  }

  lemma {:induction false} FullTable(slots: seq<Slot>)
    requires forall i | 0 <= i < |slots| :: slots[i].Used? && slots[i].client < MAX_CLIENTS
    ensures InUse(slots) == |slots|
  {
    if slots != [] {
      assert forall i | 0 <= i < |slots[1..]| :: slots[1..][i] == slots[i + 1];
      FullTable(slots[1..]);
      var c := slots[0].client;
      assert c == 0 || c == 1 || c == 2 || c == 3;
    }
  }

  lemma {:induction false} FreeSlotIs(slots: seq<Slot>)
    ensures var i := FreeSlot(slots);
            i <= |slots| && (i < |slots| ==> slots[i].Free?) &&
            (i == |slots| ==> forall j | 0 <= j < |slots| :: slots[j].Used?)
  {
    if slots != [] && !slots[0].Free? {
      FreeSlotIs(slots[1..]);
      assert forall j | 0 < j < |slots| :: slots[j] == slots[1..][j - 1];
    }
  }

  lemma OnePlaceAtMost(c: nat, cl: Client, cmds: seq<Command>, offsets: seq<nat>, results: seq<Result>)
    requires ClientIs(c, cl, cmds, offsets, results)
    ensures |offsets| <= 1
  {
    assert Guard(0);
  }

  lemma FullTableIsShared(s: Server)
    requires Inv(s) && forall i | 0 <= i < |s.slots| :: s.slots[i].Used?
    ensures forall c: nat | c < MAX_CLIENTS :: OffsetsOf(s.slots, c) != []
  {
    FullTable(s.slots);
    forall c: nat | c < MAX_CLIENTS ensures |OffsetsOf(s.slots, c)| <= 1 {
      assert Mine(s, c);
      OnePlaceAtMost(c, s.clients[c], CmdsOf(s.ioQ, c), OffsetsOf(s.slots, c), ResultsOf(s.serverQ, c));
    }
    forall c: nat | c < MAX_CLIENTS ensures OffsetsOf(s.slots, c) != [] {
      assert c == 0 || c == 1 || c == 2 || c == 3;
    }
  }

  /** A client without a place finds one, as no other client has more than one. */
  lemma AlwaysASlot(s: Server, c: nat)
    requires Inv(s) && c < MAX_CLIENTS && OffsetsOf(s.slots, c) == []
    ensures FreeSlot(s.slots) < |s.slots| && s.slots[FreeSlot(s.slots)].Free?
  {
    FreeSlotIs(s.slots);
    if FreeSlot(s.slots) == |s.slots| {
      FullTableIsShared(s);
    }
  }

  /** What a message or a place tells of its client. */
  lemma PhaseIs(c: nat, cl: Client, cmds: seq<Command>, offsets: seq<nat>, results: seq<Result>)
    requires ClientIs(c, cl, cmds, offsets, results)
    ensures cmds != [] ==> if cmds[0].ReadCmd? then cl.phase.Retrieving? else cl.phase.Storing?
    ensures results != [] ==> if results[0].ReadRes? then cl.phase.Retrieving? else cl.phase.Storing?
    ensures offsets != [] ==> cl.phase.Retrieving?
  {
    assert Guard(0);
    if cl.phase.Storing? && cmds != [] {
      assert cl.up.writes[cl.up.written].WriteCmd?;
    }
    if cl.phase.Retrieving? && cmds == [] && results != [] {
      assert offsets != [] || |results| > 1 ==> Middle(c, results[0]);
    }
  }

  // ---- Steps of a client's transfer ----------------------------------------------------------------------

  lemma Asks(c: nat, cl: Client, cmds: seq<Command>, offsets: seq<nat>, results: seq<Result>, append: bool)
    requires ClientIs(c, cl, cmds, offsets, results) && Waiting(cl.phase)
    ensures cmds == [] && offsets == [] && results == []
    ensures ClientIs(c, cl.(phase := Storing, up := Begin(cl.file, append)), [], [], [])
    ensures cl.file.Some? ==> ClientIs(c, cl.(phase := Retrieving, down := Download(true, [], 0)), [ReadCmd(c)], [], [])
  {
    assert Guard(0);
    StoreBegins(c, cl, append);
  }

  lemma IsStoring(c: nat, cl: Client, cmds: seq<Command>, offsets: seq<nat>, results: seq<Result>)
    requires cl.phase.Storing?
    ensures ClientIs(c, cl, cmds, offsets, results) <==> StoringOk(c, cl, cmds, offsets, results)
  {
    assert Guard(0);
  }

  /** Receiving makes one write or none. */
  lemma ReceivedWrites(c: nat, u: Upload, data: Bytes)
    requires UploadOk(c, u)
    ensures var ws := Received(c, u, data).writes;
            if |ws| > |u.writes| then ws[|u.writes|..] == [ws[|ws| - 1]] && ws[|ws| - 1].client == c
            else ws[|u.writes|..] == []
  {
    ReceivedKeeps(c, u, data);
    var r := Received(c, u, data);
    if |r.writes| > |u.writes| {
      WriteIsLast(c, r, |r.writes| - 1);
    }
  }

  lemma ReceivesWrites(c: nat, cl: Client, cmds: seq<Command>, offsets: seq<nat>, results: seq<Result>, data: Bytes)
    requires ClientIs(c, cl, cmds, offsets, results) && cl.phase.Storing?
    ensures var ws, n := Received(c, cl.up, data).writes, |cl.up.writes|;
            |ws| >= n && if |ws| > n then ws[n..] == [ws[|ws| - 1]] && ws[|ws| - 1].client == c else ws[n..] == []
  {
    IsStoring(c, cl, cmds, offsets, results);
    ReceivedWrites(c, cl.up, data);
  }

  lemma Receives(c: nat, cl: Client, cmds: seq<Command>, offsets: seq<nat>, results: seq<Result>, data: Bytes, u: Upload, ws: seq<Command>)
    requires ClientIs(c, cl, cmds, offsets, results) && cl.phase.Storing?
    requires u == Received(c, cl.up, data) && |u.writes| >= |cl.up.writes| && ws == u.writes[|cl.up.writes|..]
    ensures ClientIs(c, cl.(up := u), cmds + ws, offsets, results)
  {
    IsStoring(c, cl, cmds, offsets, results);
    StoreReceives(c, cl, cmds, offsets, results, data);
    IsStoring(c, cl.(up := u), cmds + ws, offsets, results);
  }

  lemma Writes(c: nat, cl: Client, cmds: seq<Command>, offsets: seq<nat>, results: seq<Result>)
    requires ClientIs(c, cl, cmds, offsets, results) && cmds != [] && cmds[0].WriteCmd?
    ensures ClientIs(c, Written(cl, cmds[0]), cmds[1..], offsets, if cmds[0].eof then results + [WriteRes(c)] else results)
  {
    PhaseIs(c, cl, cmds, offsets, results);
    IsStoring(c, cl, cmds, offsets, results);
    StoreWrites(c, cl, cmds, offsets, results);
    IsStoring(c, Written(cl, cmds[0]), cmds[1..], offsets, if cmds[0].eof then results + [WriteRes(c)] else results);
  }

  lemma Takes(c: nat, cl: Client, cmds: seq<Command>, offsets: seq<nat>, results: seq<Result>)
    requires ClientIs(c, cl, cmds, offsets, results) && cmds != [] && cmds[0].ReadCmd?
    ensures offsets == [] && cmds == [ReadCmd(c)] && ClientIs(c, cl, [], [0], results)
  {
    PhaseIs(c, cl, cmds, offsets, results);
    assert Guard(0);
    RetrieveTakes(c, cl, cmds, offsets, results);
  }

  lemma Loads(c: nat, cl: Client, cmds: seq<Command>, offset: nat, results: seq<Result>)
    requires ClientIs(c, cl, cmds, [offset], results)
    ensures cl.file.Some?
    ensures var piece := Piece(cl.file.value, offset);
            var eof := |piece| < IO_BUFFER_SIZE;
            ClientIs(c, cl, cmds, if eof then [] else [offset + |piece|], results + [ReadRes(c, false, eof, piece)])
  {
    PhaseIs(c, cl, cmds, [offset], results);
    assert Guard(0);
    RetrieveLoads(c, cl, cmds, offset, results);
  }

  /** The client when the server thread has taken a result. */
  function Answered(cl: Client, r: Result): Client {
    match r
    case ReadRes(_, error, eof, data) => Sent(cl, error, eof, data)
    case WriteRes(_) => cl.(phase := Stored, up := cl.up.(buffer := [], eofSent := false))
  }

  lemma Answers(c: nat, cl: Client, cmds: seq<Command>, offsets: seq<nat>, results: seq<Result>)
    requires ClientIs(c, cl, cmds, offsets, results) && results != []
    ensures ClientIs(c, Answered(cl, results[0]), cmds, offsets, results[1..])
  {
    PhaseIs(c, cl, cmds, offsets, results);
    assert Guard(0);
    if results[0].WriteRes? {
      StoreEnds(c, cl, cmds, offsets, results);
    } else {
      RetrieveSends(c, cl, cmds, offsets, results);
    }
  }

  // ---- Steps of the server -------------------------------------------------------------------------------

  /** A client's transfer, given what of the queues and places is its own. */
  lemma MineIs(r: Server, c: nat, cl: Client, cmds: seq<Command>, offsets: seq<nat>, results: seq<Result>)
    requires c < |r.clients| && r.clients[c] == cl && ClientIs(c, cl, cmds, offsets, results)
    requires CmdsOf(r.ioQ, c) == cmds && OffsetsOf(r.slots, c) == offsets && ResultsOf(r.serverQ, c) == results
    ensures Mine(r, c)
  {
  }

  /** A step that leaves what is a client's alone. */
  lemma MineStays(s: Server, r: Server, k: nat)
    requires k < |s.clients| == |r.clients| && Mine(s, k) && r.clients[k] == s.clients[k]
    requires CmdsOf(r.ioQ, k) == CmdsOf(s.ioQ, k) && OffsetsOf(r.slots, k) == OffsetsOf(s.slots, k)
    requires ResultsOf(r.serverQ, k) == ResultsOf(s.serverQ, k)
    ensures Mine(r, k)
  {
  }

  lemma StorKeeps(s: Server, c: nat, append: bool)
    requires Inv(s)
    ensures Inv(StorStep(s, c, append))
  {
    if c < |s.clients| && Waiting(s.clients[c].phase) {
      assert Mine(s, c);
      var r := StorStep(s, c, append);
      Asks(c, s.clients[c], CmdsOf(s.ioQ, c), OffsetsOf(s.slots, c), ResultsOf(s.serverQ, c), append);
      MineIs(r, c, r.clients[c], [], [], []);
      forall k | 0 <= k < MAX_CLIENTS && k != c ensures Mine(r, k) {
        MineStays(s, r, k);
      }
    }
  }

  lemma RetrKeeps(s: Server, c: nat)
    requires Inv(s)
    ensures Inv(RetrStep(s, c))
  {
    if c < |s.clients| && Waiting(s.clients[c].phase) && !s.clients[c].down.started && s.clients[c].file.Some? {
      assert Mine(s, c);
      var r := RetrStep(s, c);
      Asks(c, s.clients[c], CmdsOf(s.ioQ, c), OffsetsOf(s.slots, c), ResultsOf(s.serverQ, c), false);
      CmdsAppend(s.ioQ, ReadCmd(c), c);
      MineIs(r, c, r.clients[c], [ReadCmd(c)], [], []);
      forall k | 0 <= k < MAX_CLIENTS && k != c ensures Mine(r, k) {
        CmdsAppend(s.ioQ, ReadCmd(c), k);
        MineStays(s, r, k);
      }
    }
  }

  lemma ReceiveKeeps(s: Server, c: nat, data: Bytes)
    requires Inv(s)
    ensures Inv(ReceiveStep(s, c, data))
  {
    if c < |s.clients| && s.clients[c].phase.Storing? {
      assert Mine(s, c);
      var cl, cmds, offsets, results := s.clients[c], CmdsOf(s.ioQ, c), OffsetsOf(s.slots, c), ResultsOf(s.serverQ, c);
      var r, u := ReceiveStep(s, c, data), Received(c, s.clients[c].up, data);
      ReceivesWrites(c, cl, cmds, offsets, results, data);
      var ws := u.writes[|cl.up.writes|..];
      Receives(c, cl, cmds, offsets, results, data, u, ws);
      if |u.writes| > |cl.up.writes| {
        var w := u.writes[|u.writes| - 1];
        CmdsAppend(s.ioQ, w, c);
        MineIs(r, c, cl.(up := u), cmds + ws, offsets, results);
        forall k | 0 <= k < MAX_CLIENTS && k != c ensures Mine(r, k) {
          CmdsAppend(s.ioQ, w, k);
          MineStays(s, r, k);
        }
      } else {
        assert cmds + [] == cmds;
        MineIs(r, c, cl.(up := u), cmds + ws, offsets, results);
        forall k | 0 <= k < MAX_CLIENTS && k != c ensures Mine(r, k) {
          MineStays(s, r, k);
        }
      }
    }
  }

  lemma LoadKeeps(s: Server, i: nat)
    requires Inv(s)
    ensures Inv(LoadStep(s, i))
  {
    if i < |s.slots| && s.slots[i].Used? && s.slots[i].client < |s.clients| {
      var c := s.slots[i].client;
      var r := LoadStep(s, i);
      LoadKeepsMine(s, i);
      forall k | 0 <= k < MAX_CLIENTS && k != c ensures Mine(r, k) {
        OffsetsUpdate(s.slots, i, r.slots[i], k);
        ResultsAppend(s.serverQ, r.serverQ[|s.serverQ|], k);
        MineStays(s, r, k);
      }
    }
  }

  lemma LoadKeepsMine(s: Server, i: nat)
    requires Inv(s) && i < |s.slots| && s.slots[i].Used?
    ensures Mine(LoadStep(s, i), s.slots[i].client)
  {
    var c, offset := s.slots[i].client, s.slots[i].offset;
    var cl, cmds, offsets, results := s.clients[c], CmdsOf(s.ioQ, c), OffsetsOf(s.slots, c), ResultsOf(s.serverQ, c);
    var r := LoadStep(s, i);
    assert Mine(s, c);
    OnePlaceAtMost(c, cl, cmds, offsets, results);
    OffsetsUpdate(s.slots, i, r.slots[i], c);
    assert offsets == [offset];
    Loads(c, cl, cmds, offset, results);
    var piece := Piece(cl.file.value, offset);
    var eof := |piece| < IO_BUFFER_SIZE;
    ResultsAppend(s.serverQ, ReadRes(c, false, eof, piece), c);
    MineIs(r, c, cl, cmds, if eof then [] else [offset + |piece|], results + [ReadRes(c, false, eof, piece)]);
  }

  lemma IoKeepsRead(s: Server)
    requires Inv(s) && s.ioQ != [] && s.ioQ[0].ReadCmd?
    ensures Inv(IoStep(s))
  {
    var c, i := s.ioQ[0].client, FreeSlot(s.slots);
    var cl, cmds, offsets, results := s.clients[c], CmdsOf(s.ioQ, c), OffsetsOf(s.slots, c), ResultsOf(s.serverQ, c);
    assert Mine(s, c);
    Takes(c, cl, cmds, offsets, results);
    AlwaysASlot(s, c);
    var r := IoStep(s);
    OffsetsUpdate(s.slots, i, Used(c, 0), c);
    MineIs(r, c, cl, [], [0], results);
    forall k | 0 <= k < MAX_CLIENTS && k != c ensures Mine(r, k) {
      OffsetsUpdate(s.slots, i, Used(c, 0), k);
      MineStays(s, r, k);
    }
  }

  lemma IoKeepsWrite(s: Server)
    requires Inv(s) && s.ioQ != [] && s.ioQ[0].WriteCmd?
    ensures Inv(IoStep(s))
  {
    IoKeepsMine(s);
    var r := IoStep(s);
    forall k | 0 <= k < MAX_CLIENTS && k != s.ioQ[0].client ensures Mine(r, k) {
      ResultsAppend(s.serverQ, WriteRes(s.ioQ[0].client), k);
      MineStays(s, r, k);
    }
  }

  lemma IoKeepsMine(s: Server)
    requires Inv(s) && s.ioQ != [] && s.ioQ[0].WriteCmd?
    ensures Mine(IoStep(s), s.ioQ[0].client)
  {
    var c, r := s.ioQ[0].client, IoStep(s);
    var cl, cmds, offsets, results := s.clients[c], CmdsOf(s.ioQ, c), OffsetsOf(s.slots, c), ResultsOf(s.serverQ, c);
    assert Mine(s, c);
    Writes(c, cl, cmds, offsets, results);
    ResultsAppend(s.serverQ, WriteRes(c), c);
    MineIs(r, c, Written(cl, cmds[0]), cmds[1..], offsets, if cmds[0].eof then results + [WriteRes(c)] else results);
  }

  lemma ServerKeeps(s: Server)
    requires Inv(s)
    ensures Inv(ServerStep(s))
  {
    if s.serverQ != [] {
      var c, r := s.serverQ[0].client, ServerStep(s);
      var cl, cmds, offsets, results := s.clients[c], CmdsOf(s.ioQ, c), OffsetsOf(s.slots, c), ResultsOf(s.serverQ, c);
      assert Mine(s, c);
      Answers(c, cl, cmds, offsets, results);
      MineIs(r, c, Answered(cl, results[0]), cmds, offsets, results[1..]);
      forall k | 0 <= k < MAX_CLIENTS && k != c ensures Mine(r, k) {
        MineStays(s, r, k);
      }
    }
  }

  lemma Keeps(s: Server, a: Action)
    requires Inv(s)
    ensures Inv(Step(s, a))
  {
    match a {
      case Stor(c, append) => StorKeeps(s, c, append);
      case Retr(c) => RetrKeeps(s, c);
      case Receive(c, data) => ReceiveKeeps(s, c, data);
      case LoadSlot(i) => LoadKeeps(s, i);
      case IoTakes =>
        if s.ioQ != [] {
          if s.ioQ[0].ReadCmd? { IoKeepsRead(s); } else { IoKeepsWrite(s); }
        }
      case ServerTakes => ServerKeeps(s);
    }
  }

  lemma {:induction false} Always(s: Server, actions: seq<Action>)
    requires Starts(s)
    ensures Inv(Run(s, actions))
    decreases |actions|
  {
    if actions == [] {
      StartsOk(s);
    } else {
      Always(s, actions[..|actions| - 1]);
      Keeps(Run(s, actions[..|actions| - 1]), actions[|actions| - 1]);
    }
  }

  lemma {:induction false} NoOffsets(slots: seq<Slot>, c: nat)
    requires forall i | 0 <= i < |slots| :: slots[i].Free?
    ensures OffsetsOf(slots, c) == []
  {
    if slots != [] {
      NoOffsets(slots[1..], c);
    }
  }

  lemma StartsOk(s: Server)
    requires Starts(s)
    ensures Inv(s)
  {
    forall c | 0 <= c < MAX_CLIENTS ensures Mine(s, c) {
      NoOffsets(s.slots, c);
      MineIs(s, c, s.clients[c], [], [], []);
    }
  }

  // ---- The main results ----------------------------------------------------------------------------------

  lemma Associate<T>(a: seq<T>, b: seq<T>, c: seq<T>)
    ensures (a + b) + c == a + (b + c)
  {
  }

  lemma {:induction false} PayloadConcat(a: seq<Command>, b: seq<Command>)
    ensures Payload(a + b) == Payload(a) + Payload(b)
    decreases |b|
  {
    if b == [] {
      assert a + b == a;
    } else {
      var init, w := b[..|b| - 1], b[|b| - 1];
      PayloadConcat(a, init);
      PayloadAppend(a + init, w);
      PayloadAppend(init, w);
      Associate(a, init, [w]);
      Associate(Payload(a), Payload(init), Carried(w));
      assert init + [w] == b;
    }
  }

  predicate Conserved(c: nat, cl: Client, queued: seq<Command>) {
    var u := cl.up;
    WritesFit(c, u.writes, u.appending, u.eofSent) && u.written <= |u.writes| && queued == u.writes[u.written..] &&
    u.received == Payload(u.writes[..u.written]) + Payload(queued) + u.buffer && |u.buffer| < IO_BUFFER_SIZE &&
    cl.file == Final(u.before, u.appending, Payload(u.writes[..u.written]))
  }

  lemma StoringConserves(c: nat, cl: Client, cmds: seq<Command>, offsets: seq<nat>, results: seq<Result>)
    requires StoringOk(c, cl, cmds, offsets, results)
    ensures Conserved(c, cl, cmds)
  {
    var u := cl.up;
    var done := u.writes[..u.written];
    assert u.writes == done + cmds;
    PayloadConcat(done, cmds);
    WritesMakeFile(c, u.before, u.writes, u.written, u.appending, u.eofSent);
  }

  /** While a client uploads: what has been received is what the IO thread has been given, then what is still in its
      queue for this client, then what is in the buffer; of all these writes only the first has the command's append
      flag, only the last may be the end, and all the others fill the buffer; and the file is what the writes so far
      make of it. */
  lemma UploadConserves(s: Server, actions: seq<Action>, c: nat)
    requires Starts(s) && c < MAX_CLIENTS
    ensures var r := Run(s, actions);
            |r.clients| == MAX_CLIENTS && (r.clients[c].phase.Storing? ==> Conserved(c, r.clients[c], CmdsOf(r.ioQ, c)))
  {
    Always(s, actions);
    var r := Run(s, actions);
    assert Mine(r, c) && Guard(0);
    if r.clients[c].phase.Storing? {
      StoringConserves(c, r.clients[c], CmdsOf(r.ioQ, c), OffsetsOf(r.slots, c), ResultsOf(r.serverQ, c));
    }
  }

  /** When a client has the reply to its upload, the data received is in the file, behind what was there if it was to
      be appended; it took one write for each full buffer and one more, the only one to be marked as the end. Without
      any data, the file is as it was, or is still not there. */
  lemma UploadCompletes(s: Server, actions: seq<Action>, c: nat)
    requires Starts(s) && c < MAX_CLIENTS
    ensures var r := Run(s, actions);
            |r.clients| == MAX_CLIENTS &&
            (r.clients[c].phase.Stored? ==>
               var u := r.clients[c].up;
               r.clients[c].file ==
               (if u.received == [] then u.before else Some((if u.appending then Contents(u.before) else []) + u.received)) &&
               WritesFit(c, u.writes, u.appending, true) && |u.writes| == |u.received| / 250_000 + 1)
  {
    Always(s, actions);
    assert Mine(Run(s, actions), c) && Guard(0);
    var data := Run(s, actions).clients[c].up.received;
    assert [] + data == data;
  }

  /** The file that the command asks for: there, with what was to be appended to and then what was received. */
  function Asked(u: Upload): Option<Bytes> {
    Some((if u.appending then Contents(u.before) else []) + u.received)
  }

  /** So the file is what the command asked for if and only if something was received, or there was a file that was
      to be appended to or was empty. */
  lemma UploadAsAskedExactlyWhen(s: Server, actions: seq<Action>, c: nat)
    requires Starts(s) && c < MAX_CLIENTS
    ensures var r := Run(s, actions);
            |r.clients| == MAX_CLIENTS &&
            (r.clients[c].phase.Stored? ==>
               var u := r.clients[c].up;
               (r.clients[c].file == Asked(u) <==>
                u.received != [] || (u.before.Some? && (u.appending || u.before.value == []))))
  {
    UploadCompletes(s, actions, c);
    var u := Run(s, actions).clients[c].up;
    assert Contents(u.before) + [] == Contents(u.before);
  }

  function EmptyUpload(c: nat, append: bool): seq<Action> {
    [Stor(c, append), Receive(c, []), IoTakes, ServerTakes]
  }

  /** A client that uploads nothing gets its reply and has the file it had, or none, from any start. */
  lemma EmptyUploadKeepsFile(s: Server, c: nat, append: bool)
    requires Starts(s) && c < MAX_CLIENTS
    ensures var r := Run(s, EmptyUpload(c, append));
            |r.clients| == MAX_CLIENTS && r.clients[c].phase.Stored? && r.clients[c].up.appending == append &&
            r.clients[c].up.received == [] && r.clients[c].file == r.clients[c].up.before == s.clients[c].file
  {
    var all := EmptyUpload(c, append);
    var asked := EmptyStor(s, c, append);
    var ended := EmptyReceive(s, c, append, asked);
    var written := Step(ended, IoTakes);
    assert Run(s, all[..3]) == written by {
      assert all[..3][..2] == all[..2];
    }
    assert all[..4][..3] == all[..3];
    assert Run(s, all) == Step(written, ServerTakes);
  }

  /** Two such uploads that are not as asked: over a file that has something in it, and, appended or not, under a
      name that does not exist, which then still does not. */
  lemma EmptyUploadsNotAsAsked(s: Server, c: nat, append: bool)
    requires Starts(s) && c < MAX_CLIENTS
    requires s.clients[c].file == None || (!append && s.clients[c].file != Some([]))
    ensures var r := Run(s, EmptyUpload(c, append));
            |r.clients| == MAX_CLIENTS && r.clients[c].phase.Stored? && r.clients[c].file != Asked(r.clients[c].up) &&
            r.clients[c].file == s.clients[c].file
  {
    EmptyUploadKeepsFile(s, c, append);
    UploadAsAskedExactlyWhen(s, EmptyUpload(c, append), c);
  }

  lemma EmptyStor(s: Server, c: nat, append: bool) returns (r: Server)
    requires Starts(s) && c < MAX_CLIENTS
    ensures r == Run(s, EmptyUpload(c, append)[..1]) == StorStep(s, c, append)
    ensures r.ioQ == [] && r.serverQ == [] && |r.clients| == MAX_CLIENTS
    ensures var cl := r.clients[c]; cl.phase.Storing? && cl.up == Begin(s.clients[c].file, append) && cl.file == s.clients[c].file
  {
    r := Step(s, Stor(c, append));
    assert EmptyUpload(c, append)[..1][..0] == [];
  }

  lemma EmptyReceive(s: Server, c: nat, append: bool, asked: Server) returns (r: Server)
    requires c < MAX_CLIENTS && asked == Run(s, EmptyUpload(c, append)[..1]) && |asked.clients| == MAX_CLIENTS
    requires asked.ioQ == [] && asked.serverQ == [] && asked.clients[c].phase.Storing?
    requires asked.clients[c].up == Begin(asked.clients[c].file, append)
    ensures r == Run(s, EmptyUpload(c, append)[..2]) && |r.clients| == MAX_CLIENTS && r.serverQ == []
    ensures r.ioQ == [WriteCmd(c, append, true, [])]
    ensures var cl := r.clients[c];
            cl.phase.Storing? && cl.up.appending == append && cl.up.received == [] && cl.file == cl.up.before == asked.clients[c].file
  {
    r := Step(asked, Receive(c, []));
    assert EmptyUpload(c, append)[..2][..1] == EmptyUpload(c, append)[..1];
  }

  /** While a client downloads, once its file has a place: the offset there is the number of bytes sent to the client
      and on their way, which are the file's up to there. */
  lemma DownloadConserves(s: Server, actions: seq<Action>, c: nat)
    requires Starts(s) && c < MAX_CLIENTS
    ensures var r := Run(s, actions);
            |r.clients| == MAX_CLIENTS &&
            var offsets := OffsetsOf(r.slots, c);
            offsets != [] ==>
              var sent := r.clients[c].down.sent + Data(ResultsOf(r.serverQ, c));
              r.clients[c].phase.Retrieving? && offsets == [|sent|] && r.clients[c].file.Some? && sent <= r.clients[c].file.value
  {
    Always(s, actions);
    var r := Run(s, actions);
    assert Mine(r, c) && Guard(0);
    PhaseIs(c, r.clients[c], CmdsOf(r.ioQ, c), OffsetsOf(r.slots, c), ResultsOf(r.serverQ, c));
  }

  /** When a client has the reply to its download, it has the file, in one piece for each full buffer and one more;
      no download fails for want of a place. */
  lemma DownloadCompletes(s: Server, actions: seq<Action>, c: nat)
    requires Starts(s) && c < MAX_CLIENTS
    ensures var r := Run(s, actions);
            |r.clients| == MAX_CLIENTS && !r.clients[c].phase.Failed? &&
            (r.clients[c].phase.Retrieved? ==>
               r.clients[c].file == Some(r.clients[c].down.sent) &&
               r.clients[c].down.chunks == |r.clients[c].down.sent| / 250_000 + 1)
  {
    Always(s, actions);
    assert Mine(Run(s, actions), c) && Guard(0);
  }

  // ---- What an upload is told --------------------------------------------------------------------------------

  /** The step begins an upload of the client, or brings data that its buffer has room for. */
  predicate BeginsStore(s: Server, a: Action, c: nat) {
    a.Stor? && a.client == c && c < |s.clients| && Waiting(s.clients[c].phase)
  }

  predicate BringsData(s: Server, a: Action, c: nat) {
    a.Receive? && a.client == c && c < |s.clients| && s.clients[c].phase.Storing? && !s.clients[c].up.eofSent &&
    |s.clients[c].up.buffer| + |a.data| <= 250_000
  }

  /** What the last upload of the client has been told: whether to append, the file it found, and the data brought. */
  datatype Told = Told(append: bool, file: Option<Bytes>, data: Bytes)

  function LastUpload(s: Server, actions: seq<Action>, c: nat): Told
    requires c < |s.clients|
    decreases |actions|
  {
    if actions == [] then Told(s.clients[c].up.appending, s.clients[c].up.before, s.clients[c].up.received)
    else
      var init, a := actions[..|actions| - 1], actions[|actions| - 1];
      var t, last := Run(s, init), LastUpload(s, init, c);
      if BeginsStore(t, a, c) then Told(a.append, t.clients[c].file, [])
      else if BringsData(t, a, c) then last.(data := last.data + a.data)
      else last
  }

  function ToldBy(u: Upload): Told {
    Told(u.appending, u.before, u.received)
  }

  lemma ToldMoves(s: Server, a: Action, c: nat)
    requires c < |s.clients|
    ensures var r := Step(s, a);
            |r.clients| == |s.clients| &&
            ToldBy(r.clients[c].up) ==
            if BeginsStore(s, a, c) then Told(a.append, s.clients[c].file, [])
            else if BringsData(s, a, c) then ToldBy(s.clients[c].up).(data := s.clients[c].up.received + a.data)
            else ToldBy(s.clients[c].up)
  {
  }

  /** So the data of UploadCompletes are those that the client brought, and the file and the flag those of its command. */
  lemma {:induction false} UploadIsAsTold(s: Server, actions: seq<Action>, c: nat)
    requires c < |s.clients|
    ensures |Run(s, actions).clients| == |s.clients| && ToldBy(Run(s, actions).clients[c].up) == LastUpload(s, actions, c)
    decreases |actions|
  {
    if actions != [] {
      UploadIsAsTold(s, actions[..|actions| - 1], c);
      ToldMoves(Run(s, actions[..|actions| - 1]), actions[|actions| - 1], c);
    }
  }
}
