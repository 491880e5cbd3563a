/** What every run of the player keeps of the messages between its threads: nothing asked for is lost or
    answered twice, and an abort leaves the threads quiet. */
module PlayerMessages {
  import opened PlayerInvariants
  import opened PlayerModel

  // ---- Counting messages ------------------------------------------------------------------------------

  function Count<T>(q: seq<T>, p: T -> bool): nat {
    if q == [] then 0 else (if p(q[0]) then 1 else 0) + Count(q[1..], p)
  }

  lemma {:induction false} CountAppend<T>(q: seq<T>, x: T, p: T -> bool)
    ensures Count(q + [x], p) == Count(q, p) + if p(x) then 1 else 0
    decreases |q|
  {
    if q == [] {
      assert q + [x] == [x];
    } else {
      assert (q + [x])[1..] == q[1..] + [x];
      CountAppend(q[1..], x, p);
    }
  }

  lemma {:induction false} CountNone<T>(q: seq<T>, p: T -> bool)
    ensures Count(q, p) == 0 <==> forall i | 0 <= i < |q| :: !p(q[i])
    decreases |q|
  {
    if q != [] {
      CountNone(q[1..], p);
      assert forall i | 0 < i < |q| :: q[i] == q[1..][i - 1];
    }
  }

  /** Behind the notice of an abort there is no notice about the file. */
  ghost predicate NoneAfter(notes: seq<Note>, marker: Note, p: Note -> bool) {
    forall i, j | 0 <= i < j < |notes| && notes[i] == marker :: !p(notes[j])
  }

  lemma NoneAfterAppend(notes: seq<Note>, marker: Note, p: Note -> bool, n: Note)
    requires NoneAfter(notes, marker, p) && (p(n) ==> forall i | 0 <= i < |notes| :: notes[i] != marker)
    ensures NoneAfter(notes + [n], marker, p)
  {
  }

  lemma NoneAfterTail(notes: seq<Note>, marker: Note, p: Note -> bool)
    requires NoneAfter(notes, marker, p) && notes != []
    ensures NoneAfter(notes[1..], marker, p) && (notes[0] == marker ==> Count(notes[1..], p) == 0)
  {
    CountNone(notes[1..], p);
    forall i, j | 0 <= i < j < |notes[1..]| && notes[1..][i] == marker ensures !p(notes[1..][j]) {
      assert notes[i + 1] == marker;
    }
  }

  // ---- Reading packets ----------------------------------------------------------------------------------

  predicate IsRead(c: ReadCmd) { c.Read? }
  predicate IsReadDone(n: Note) { n.ReadDone? }
  predicate IsAbortRead(c: ReadCmd) { c.AbortRead? }
  predicate IsReadAborted(n: Note) { n.ReadAborted? }

  /** Notices that the read-packet thread sends about a file. */
  predicate OfReader(n: Note) { n.ReadDone? || n.SeekDone? }

  /** Requests to read that have not been taken, the one being answered, and answers not yet seen. */
  function Reads(readQ: seq<ReadCmd>, reader: Reader, notes: seq<Note>): nat {
    Count(readQ, IsRead) + (if reader.Reading? then 1 else 0) + Count(notes, IsReadDone)
  }

  function ReadAborts(readQ: seq<ReadCmd>, reader: Reader, notes: seq<Note>): nat {
    Count(readQ, IsAbortRead) + (if reader.ReaderAborting? then 1 else 0) + Count(notes, IsReadAborted)
  }

  /** The read-packet thread has nothing to do, and all it has said about a file has been seen. */
  predicate ReaderQuiet(readQ: seq<ReadCmd>, reader: Reader, notes: seq<Note>) {
    readQ == [] && reader.ReaderIdle? && Count(notes, OfReader) == 0
  }

  /** When the read-packet thread must be quiet: without a file, and once it has aborted. */
  predicate ReaderDone(d: Decode) {
    !Session(d) || d.mode.AwaitConvert? || d.mode.AwaitVideo?
  }

  ghost predicate ReadInv(d: Decode, readQ: seq<ReadCmd>, reader: Reader, notes: seq<Note>) {
    Playback(d) &&
    Reads(readQ, reader, notes) <= 1 &&
    ReadAborts(readQ, reader, notes) == (if d.mode.AwaitRead? then 1 else 0) &&
    (d.mode.Running? && Session(d) ==> Reads(readQ, reader, notes) == if d.readActive then 1 else 0) &&
    (ReaderDone(d) ==> ReaderQuiet(readQ, reader, notes)) &&
    (Count(notes, IsReadAborted) > 0 ==> readQ == [] && reader.ReaderIdle?) &&
    NoneAfter(notes, ReadAborted, OfReader)
  }

  /** A notice of another thread. */
  lemma ReadOthers(d: Decode, readQ: seq<ReadCmd>, reader: Reader, notes: seq<Note>, n: Note)
    requires ReadInv(d, readQ, reader, notes) && !OfReader(n) && !n.ReadAborted?
    ensures ReadInv(d, readQ, reader, notes + [n])
  {
    CountAppend(notes, n, IsReadDone);
    CountAppend(notes, n, IsReadAborted);
    CountAppend(notes, n, OfReader);
    NoneAfterAppend(notes, ReadAborted, OfReader, n);
  }

  /** The read-packet thread is done with a request. */
  lemma ReadAnswers(d: Decode, readQ: seq<ReadCmd>, reader: Reader, notes: seq<Note>, n: Note)
    requires ReadInv(d, readQ, reader, notes)
    requires (reader.Reading? && n.ReadDone?) || (reader.SeekingFile? && n.SeekDone?)
    ensures ReadInv(d, readQ, ReaderIdle, notes + [n])
  {
    CountAppend(notes, n, IsReadDone);
    CountAppend(notes, n, IsReadAborted);
    CountNone(notes, IsReadAborted);
    NoneAfterAppend(notes, ReadAborted, OfReader, n);
  }

  lemma ReadFlushes(d: Decode, readQ: seq<ReadCmd>, notes: seq<Note>)
    requires ReadInv(d, readQ, ReaderAborting, notes)
    ensures ReadInv(d, [], ReaderIdle, notes + [ReadAborted])
  {
    var n := ReadAborted;
    CountAppend(notes, n, IsReadDone);
    CountAppend(notes, n, IsReadAborted);
    NoneAfterAppend(notes, ReadAborted, OfReader, n);
  }

  lemma ReadTakes(d: Decode, readQ: seq<ReadCmd>, notes: seq<Note>, next: Reader)
    requires ReadInv(d, readQ, ReaderIdle, notes) && readQ != []
    requires next == match readQ[0] case Read => Reading case Seek => SeekingFile case AbortRead => ReaderAborting
    ensures Session(d) && ReadInv(d, readQ[1..], next, notes)
  {
  }

  lemma ReadNoteDropped(d: Decode, readQ: seq<ReadCmd>, reader: Reader, notes: seq<Note>)
    requires ReadInv(d, readQ, reader, notes) && notes != [] && !d.mode.Running? && !notes[0].ReadAborted?
    ensures ReadInv(d, readQ, reader, notes[1..])
  {
    NoneAfterTail(notes, ReadAborted, OfReader);
  }

  /** The decode thread sees a notice and changes nothing that matters here but the flag of an answer. */
  lemma ReadNoteSeen(d: Decode, d': Decode, readQ: seq<ReadCmd>, reader: Reader, notes: seq<Note>)
    requires ReadInv(d, readQ, reader, notes) && notes != [] && d.mode.Running? && Playback(d')
    requires d'.mode.Running? && Session(d') == Session(d)
    requires d'.readActive == (d.readActive && !notes[0].ReadDone?)
    ensures ReadInv(d', readQ, reader, notes[1..])
  {
    NoneAfterTail(notes, ReadAborted, OfReader);
  }

  /** The awaited notice of the read-packet thread: it is quiet from here on. */
  lemma ReadAbortSeen(d: Decode, d': Decode, readQ: seq<ReadCmd>, reader: Reader, notes: seq<Note>)
    requires ReadInv(d, readQ, reader, notes) && notes != [] && notes[0].ReadAborted? && Playback(d')
    requires d'.mode.AwaitConvert? && Session(d')
    ensures ReadInv(d', readQ, reader, notes[1..])
  {
    NoneAfterTail(notes, ReadAborted, OfReader);
  }

  /** A change of the decode thread that keeps its mode, the session, and the flag. */
  lemma ReadSame(d: Decode, d': Decode, readQ: seq<ReadCmd>, reader: Reader, notes: seq<Note>)
    requires ReadInv(d, readQ, reader, notes) && Playback(d') && Session(d') == Session(d)
    requires d'.mode == d.mode && d'.readActive == d.readActive
    ensures ReadInv(d', readQ, reader, notes)
  {
  }

  /** The read-packet thread stays quiet while the abort of the others goes on, and when the file is closed. */
  lemma ReadStaysQuiet(d: Decode, d': Decode, readQ: seq<ReadCmd>, reader: Reader, notes: seq<Note>)
    requires ReadInv(d, readQ, reader, notes) && ReaderDone(d) && Playback(d') && ReaderDone(d')
    ensures ReadInv(d', readQ, reader, notes)
  {
    CountNone(notes, IsReadDone);
    CountNone(notes, OfReader);
  }

  lemma ReadSends(d: Decode, d': Decode, readQ: seq<ReadCmd>, reader: Reader, notes: seq<Note>, cmd: ReadCmd)
    requires ReadInv(d, readQ, reader, notes) && d.mode.Running? && Playback(d') && Session(d')
    requires match cmd
             case Read => (Session(d) ==> !d.readActive) && d'.readActive && d'.mode.Running?
             case Seek => Session(d) && d'.readActive == d.readActive && d'.mode.Running?
             case AbortRead => Session(d) && d'.mode.AwaitRead?
    ensures ReadInv(d', readQ + [cmd], reader, notes)
  {
    CountAppend(readQ, cmd, IsRead);
    CountAppend(readQ, cmd, IsAbortRead);
    CountNone(notes, IsReadDone);
    CountNone(notes, OfReader);
  }

  ghost predicate ReadOk(s: Sys) {
    ReadInv(s.d, s.readQ, s.reader, s.notes)
  }

  /** A file that does not open is closed by an abort, with nothing asked for. */
  lemma ReadFails(d: Decode, d': Decode, readQ: seq<ReadCmd>, reader: Reader, notes: seq<Note>)
    requires ReadInv(d, readQ, reader, notes) && !Session(d) && Playback(d') && Session(d') && d'.mode.Running? && !d'.readActive
    requires d.mode.Running?
    ensures ReadInv(d', readQ, reader, notes)
  {
    CountNone(notes, IsReadDone);
    CountNone(notes, OfReader);
  }

  lemma ReadPlays(s: Sys, found: bool, m: Media, buffer: bool)
    requires ReadOk(s) && s.d.mode.Running? && ValidMedia(m) && !Session(s.d)
    ensures ReadOk(Play(s, found, m, buffer))
  {
    ObeyKeeps(s, PlayRequest(found, m, buffer));
    StartKeeps(m, buffer);
    StartKeeps(m, false);
    var d' := Play(s, found, m, buffer).d;
    if found {
      ReadSends(s.d, d', s.readQ, s.reader, s.notes, Read);
    } else {
      ReadFails(s.d, d', s.readQ, s.reader, s.notes);
    }
  }

  lemma ReadAborting(s: Sys, end: Ending)
    requires ReadOk(s) && s.d.mode.Running?
    ensures ReadOk(AbortCmd(s, end))
  {
    ObeyKeeps(s, AbortRequest(end));
    var d' := AbortCmd(s, end).d;
    if Session(s.d) {
      ReadSends(s.d, d', s.readQ, s.reader, s.notes, AbortRead);
    } else {
      ReadStaysQuiet(s.d, d', s.readQ, s.reader, s.notes);
    }
  }

  lemma ReadSeeks(s: Sys, pos: int)
    requires ReadOk(s) && s.d.mode.Running?
    ensures ReadOk(SeekCmd(s, pos))
  {
    if Session(s.d) && !s.d.c.state.PrepareSeeking? {
      ObeyKeeps(s, SeekRequest(pos));
      SeekKeeps(s.d.c, s.d.media.speaker);
      ReadSends(s.d, SeekCmd(s, pos).d, s.readQ, s.reader, s.notes, Seek);
    }
  }

  lemma ReadControls(s: Sys, cmd: Cmd)
    requires ReadOk(s) && (cmd.PauseRequest? || cmd.ResumeRequest? || cmd.TrackRequest?)
    ensures ReadOk(Obey(s, cmd))
  {
    ControlOnly(s, cmd);
    ReadSame(s.d, Obey(s, cmd).d, s.readQ, s.reader, s.notes);
  }

  lemma ReadObeys(s: Sys, cmd: Cmd)
    requires ReadOk(s) && s.d.mode.Running?
    ensures ReadOk(Obey(s, cmd))
  {
    match cmd {
      case PlayRequest(found, m, buffer) =>
        if ValidMedia(m) && !Session(s.d) {
          ReadPlays(s, found, m, buffer);
        }
      case SeekRequest(pos) => ReadSeeks(s, pos);
      case AbortRequest(end) => ReadAborting(s, end);
      case _ => ReadControls(s, cmd);
    }
  }

  /** Pausing, resuming and changing the audio track touch nothing but the control state. */
  lemma ControlOnly(s: Sys, cmd: Cmd)
    requires Playback(s.d) && (cmd.PauseRequest? || cmd.ResumeRequest? || cmd.TrackRequest?)
    ensures var r := Obey(s, cmd);
            r == s.(d := s.d.(c := r.d.c)) && Session(r.d) == Session(s.d) && Playback(r.d)
  {
    ObeyKeeps(s, cmd);
    PauseKeeps(s.d.c, s.d.media.speaker);
    ResumeKeeps(s.d.c, s.d.media.speaker);
    if cmd.TrackRequest? {
      TrackKeeps(s.d.c, s.d.media.speaker, cmd.changed);
    }
  }

  /** What a notice can change. */
  lemma NoticeShape(s: Sys, n: Note, drained: bool)
    requires Playback(s.d)
    ensures var r := Notice(s, n, drained);
            r == s.(d := r.d, videoQ := r.videoQ) && Playback(r.d) && r.d.mode == s.d.mode && Session(r.d) == Session(s.d) &&
            r.d.readActive == (s.d.readActive && !n.ReadDone?) && r.d.waitingVideo == (s.d.waitingVideo && !n.Copied?) &&
            (r.videoQ == s.videoQ || (Session(s.d) && r.videoQ == s.videoQ + [ClearVideo]))
  {
    NoticeKeeps(s, n, drained);
  }

  /** What a packet can change. */
  lemma PacketShape(s: Sys, video: bool, pos: int, passed: bool)
    requires Playback(s.d) && Active(s.d.c)
    ensures var r := Packet(s, video, pos, passed);
            r == s.(d := r.d, videoQ := r.videoQ) && Playback(r.d) && r.d.mode == s.d.mode && Session(r.d) && Session(s.d) &&
            r.d.readActive == s.d.readActive && r.d.waitingVideo == (s.d.waitingVideo || (video && passed)) &&
            r.videoQ == if video && passed then s.videoQ + [DecodeFrame] else s.videoQ
  {
    PacketKeeps(s, video, pos, passed);
  }

  lemma ReadSees(s: Sys, drained: bool)
    requires ReadOk(s)
    ensures ReadOk(DecodeStep(s, TakeNote(drained)))
  {
    if s.notes != [] && !s.d.mode.Exited? {
      var rest, n := s.(notes := s.notes[1..]), s.notes[0];
      if s.d.mode.Running? {
        NoticeShape(rest, n, drained);
        ReadNoteSeen(s.d, Notice(rest, n, drained).d, s.readQ, s.reader, s.notes);
      } else {
        ReadAwaits(s, n);
      }
    }
  }

  lemma ReadAwaits(s: Sys, n: Note)
    requires ReadOk(s) && s.notes != [] && n == s.notes[0] && !s.d.mode.Running? && !s.d.mode.Exited?
    ensures ReadOk(Await(s.(notes := s.notes[1..]), n))
  {
    var rest := s.(notes := s.notes[1..]);
    AwaitKeeps(rest, n);
    var d' := Await(rest, n).d;
    if n.ReadAborted? {
      assert Count(s.notes, IsReadAborted) > 0;
      ReadAbortSeen(s.d, d', s.readQ, s.reader, s.notes);
    } else {
      ReadNoteDropped(s.d, s.readQ, s.reader, s.notes);
      if d'.mode == s.d.mode {
        ReadSame(s.d, d', s.readQ, s.reader, s.notes[1..]);
      } else {
        ReadStaysQuiet(s.d, d', s.readQ, s.reader, s.notes[1..]);
      }
    }
  }

  lemma ReadReader(s: Sys, a: Action)
    requires ReadOk(s)
    ensures ReadOk(ReaderStep(s, a))
  {
    match a {
      case ReaderTakes =>
        if s.reader.ReaderIdle? && s.readQ != [] {
          ReadTakes(s.d, s.readQ, s.notes, match s.readQ[0] case Read => Reading case Seek => SeekingFile case AbortRead => ReaderAborting);
        }
      case ReaderReads(outcome) => if s.reader.Reading? { ReadAnswers(s.d, s.readQ, s.reader, s.notes, ReadDone(outcome.Eof?)); }
      case ReaderInterrupted => if s.reader.Reading? { ReadAnswers(s.d, s.readQ, s.reader, s.notes, ReadDone(false)); }
      case ReaderSought => if s.reader.SeekingFile? { ReadAnswers(s.d, s.readQ, s.reader, s.notes, SeekDone); }
      case ReaderFlushes => if s.reader.ReaderAborting? { ReadFlushes(s.d, s.readQ, s.notes); }
      case _ =>
    }
  }

  /** The other threads only add notices of their own. */
  lemma ReadByVideo(s: Sys, a: Action)
    requires ReadOk(s)
    ensures ReadOk(VideoStep(s, a))
  {
    ReadOthers(s.d, s.readQ, s.reader, s.notes, Copied);
    ReadOthers(s.d, s.readQ, s.reader, s.notes, VideoAborted);
  }

  lemma ReadByConverter(s: Sys, a: Action)
    requires ReadOk(s)
    ensures ReadOk(ConvertStep(s, a))
  {
    ReadOthers(s.d, s.readQ, s.reader, s.notes, Cleared);
    ReadOthers(s.d, s.readQ, s.reader, s.notes, ConvertAborted);
    ReadOthers(s.d, s.readQ, s.reader, s.notes, Underrun);
    ReadOthers(s.d, s.readQ, s.reader, s.notes, Buffered);
  }

  lemma ReadPackets(s: Sys, video: bool, pos: int, passed: bool)
    requires ReadOk(s) && s.d.mode.Running? && Active(s.d.c)
    ensures ReadOk(Packet(s, video, pos, passed))
  {
    PacketShape(s, video, pos, passed);
    ReadSame(s.d, Packet(s, video, pos, passed).d, s.readQ, s.reader, s.notes);
  }

  lemma ReadDecode(s: Sys, a: Action)
    requires ReadOk(s) && OfDecode(a)
    ensures ReadOk(DecodeStep(s, a))
  {
    PlaybackKept(s, a);
    match a {
      case Command(cmd) => if s.d.mode.Running? { ReadObeys(s, cmd); }
      case TakeNote(drained) => ReadSees(s, drained);
      case ReadMore =>
        if s.d.mode.Running? && Active(s.d.c) && !s.d.readActive && !s.d.eof {
          ReadSends(s.d, s.d.(readActive := true), s.readQ, s.reader, s.notes, Read);
        }
      case NoMoreToBuffer => ReadOthers(s.d, s.readQ, s.reader, s.notes, Buffered);
      case HandlePacket(video, pos, passed) =>
        if s.d.mode.Running? && Active(s.d.c) { ReadPackets(s, video, pos, passed); }
      case SetSeekPos(target) => ReadSame(s.d, s.d.(seekPos := target), s.readQ, s.reader, s.notes);
    }
  }

  lemma ReadKept(s: Sys, a: Action)
    requires ReadOk(s)
    ensures ReadOk(Step(s, a))
  {
    if OfDecode(a) {
      ReadDecode(s, a);
    } else {
      ReadReader(s, a);
      ReadByVideo(s, a);
      ReadByConverter(s, a);
    }
  }
}
