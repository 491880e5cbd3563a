/** Uploads: the data a client sends is cut into writes at the size of the buffer, and the writes together put
    exactly that data into the file. */
module FtpUpload {
  import opened FtpModel
  import opened Options

  /** What writes carry, taken together. */
  function Payload(writes: seq<Command>): Bytes {
    if writes == [] then [] else Payload(writes[..|writes| - 1]) + Carried(writes[|writes| - 1])
  }

  function Carried(w: Command): Bytes {
    if w.WriteCmd? then w.data else []
  }

  /** A file after writes. */
  function Applied(file: Option<Bytes>, writes: seq<Command>): Option<Bytes> {
    if writes == [] then file else Saved(Applied(file, writes[..|writes| - 1]), writes[|writes| - 1])
  }

  /** The i-th write of an upload: the first appends if the command does, the later ones always; only the last one
      may be the end of the file, and the others are as large as the buffer. */
  predicate WriteFits(c: nat, w: Command, first: bool, eof: bool, appending: bool) {
    w.WriteCmd? && w.client == c && w.append == (!first || appending) && w.eof == eof &&
    (if eof then |w.data| < IO_BUFFER_SIZE else |w.data| == IO_BUFFER_SIZE)
  }

  predicate WritesFit(c: nat, writes: seq<Command>, appending: bool, ended: bool) {
    forall i | 0 <= i < |writes| :: WriteFits(c, writes[i], i == 0, ended && i == |writes| - 1, appending)
  }

  /** What an upload keeps: what has been received is what the writes carry and what is in the buffer, which always
      has room, so that receiving nothing can only mean the end. */
  predicate UploadOk(c: nat, u: Upload) {
    WritesFit(c, u.writes, u.appending, u.eofSent) &&
    u.received == Payload(u.writes) + u.buffer && |u.buffer| < IO_BUFFER_SIZE &&
    u.append == (u.writes != [] || u.appending) && (u.eofSent ==> u.writes != [] && u.buffer == [])
  }

  lemma PayloadAppend(writes: seq<Command>, w: Command)
    ensures Payload(writes + [w]) == Payload(writes) + Carried(w)
  {
    assert (writes + [w])[..|writes|] == writes;
  }

  lemma AppliedAppend(file: Option<Bytes>, writes: seq<Command>, w: Command)
    ensures Applied(file, writes + [w]) == Saved(Applied(file, writes), w)
  {
    assert (writes + [w])[..|writes|] == writes;
  }

  /** The next write joins those before it, none of which is the end. */
  lemma WritesFitAppend(c: nat, writes: seq<Command>, appending: bool, w: Command)
    requires WritesFit(c, writes, appending, false) && WriteFits(c, w, writes == [], w.WriteCmd? && w.eof, appending)
    ensures WritesFit(c, writes + [w], appending, w.eof)
  {
  }

  lemma ReceivedKeeps(c: nat, u: Upload, data: Bytes)
    requires UploadOk(c, u)
    ensures var r := Received(c, u, data);
            UploadOk(c, r) && r.appending == u.appending && r.before == u.before && r.written == u.written
    ensures var r := Received(c, u, data);
            r.writes == u.writes || (!u.eofSent && |r.writes| == |u.writes| + 1 && r.writes[..|u.writes|] == u.writes)
    ensures var r := Received(c, u, data); r.writes == u.writes ==> r.eofSent == u.eofSent
  {
    if !u.eofSent && |u.buffer| + |data| <= IO_BUFFER_SIZE {
      assert u.received + data == Payload(u.writes) + (u.buffer + data);
      if data == [] || |u.buffer + data| >= IO_BUFFER_SIZE {
        var w := WriteCmd(c, u.append, data == [], u.buffer + data);
        assert data == [] ==> u.buffer + data == u.buffer;
        PayloadAppend(u.writes, w);
        WritesFitAppend(c, u.writes, u.appending, w);
        assert u.received + data == Payload(u.writes + [w]) + [];
        assert (u.writes + [w])[..|u.writes|] == u.writes;
      }
    }
  }

  // ---- The file at the end -------------------------------------------------------------------------

  /** What the file becomes when data is received: the data behind what it appends to, or if there is none, what
      the file was, or was not. */
  function Final(before: Option<Bytes>, appending: bool, data: Bytes): Option<Bytes> {
    if data == [] then before else if appending then Some(Contents(before) + data) else Some(data)
  }

  /** All writes before the end fill the buffer. */
  lemma {:induction false} FullWrites(c: nat, writes: seq<Command>, k: nat, appending: bool, ended: bool)
    requires WritesFit(c, writes, appending, ended) && k <= |writes| && (ended ==> k < |writes|)
    ensures |Payload(writes[..k])| == k * IO_BUFFER_SIZE
    decreases k
  {
    if k > 0 {
      var init, w := writes[..k - 1], writes[k - 1];
      FullWrites(c, writes, k - 1, appending, ended);
      assert writes[..k] == init + [w];
      PayloadAppend(init, w);
      assert WriteFits(c, w, k == 1, false, appending);
    }
  }

  /** When the end has been sent, there are as many writes as the data has full buffers, and one more. */
  lemma WritesCounted(c: nat, writes: seq<Command>, k: nat, appending: bool, ended: bool)
    requires WritesFit(c, writes, appending, ended) && k <= |writes|
    ensures |Payload(writes[..k])| ==
            if ended && 0 < k == |writes| then (k - 1) * IO_BUFFER_SIZE + |writes[k - 1].data| else k * IO_BUFFER_SIZE
  {
    if ended && 0 < k == |writes| {
      var init, w := writes[..k - 1], writes[k - 1];
      FullWrites(c, writes, k - 1, appending, ended);
      assert writes[..k] == init + [w];
      PayloadAppend(init, w);
      assert WriteFits(c, w, k == 1, true, appending);
    } else if k > 0 {
      FullWrites(c, writes, k, appending, ended);
    }
  }

  lemma FinalGrows(before: Option<Bytes>, appending: bool, data: Bytes, w: Command)
    requires w.WriteCmd? && w.append == (data != [] || appending)
    ensures Saved(Final(before, appending, data), w) == Final(before, appending, data + w.data)
  {
    assert Contents(before) + data + w.data == Contents(before) + (data + w.data);
    if data == [] {
      assert data + w.data == w.data;
    }
    if w.data == [] {
      assert data + w.data == data;
    }
  }

  /** A write appends if there has been anything to write before it, or if the command does. */
  lemma NextWrite(c: nat, writes: seq<Command>, k: nat, appending: bool, ended: bool)
    requires WritesFit(c, writes, appending, ended) && k < |writes|
    ensures writes[k].WriteCmd? && writes[k].append == (Payload(writes[..k]) != [] || appending)
  {
    WritesCounted(c, writes, k, appending, ended);
    assert WriteFits(c, writes[k], k == 0, ended && k == |writes| - 1, appending);
  }

  lemma {:induction false} WritesMakeFile(c: nat, file: Option<Bytes>, writes: seq<Command>, k: nat, appending: bool, ended: bool)
    requires WritesFit(c, writes, appending, ended) && k <= |writes|
    ensures Applied(file, writes[..k]) == Final(file, appending, Payload(writes[..k]))
    decreases k
  {
    if k > 0 {
      var init, w := writes[..k - 1], writes[k - 1];
      WritesMakeFile(c, file, writes, k - 1, appending, ended);
      NextWrite(c, writes, k - 1, appending, ended);
      assert writes[..k] == init + [w];
      PayloadAppend(init, w);
      AppliedAppend(file, init, w);
      FinalGrows(file, appending, Payload(init), w);
    }
  }

  /** All of an upload's writes done, its file is what was asked for. */
  lemma UploadMakesFile(c: nat, u: Upload)
    requires UploadOk(c, u) && u.eofSent
    ensures Applied(u.before, u.writes) == Final(u.before, u.appending, u.received)
    ensures |u.writes| == |u.received| / IO_BUFFER_SIZE + 1
  {
    var n := |u.writes|;
    assert u.writes[..n] == u.writes;
    assert Payload(u.writes) + [] == Payload(u.writes);
    WritesMakeFile(c, u.before, u.writes, n, u.appending, true);
    WritesCounted(c, u.writes, n, u.appending, true);
    assert WriteFits(c, u.writes[n - 1], n == 1, true, u.appending);
  }
}
