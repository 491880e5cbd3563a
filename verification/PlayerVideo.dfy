/** Video packets passed to the decode-video thread are answered one by one, and an abort leaves that thread
    quiet. */
module PlayerVideo {
  import opened PlayerInvariants
  import opened PlayerMessages
  import opened PlayerModel

  predicate IsDecodeFrame(c: VideoCmd) { c.DecodeFrame? }
  predicate IsCopied(n: Note) { n.Copied? }
  predicate IsAbortVideo(c: VideoCmd) { c.AbortVideo? }
  predicate IsVideoAborted(n: Note) { n.VideoAborted? }

  /** Packets passed on that have not been taken, the one being copied, and notices of copies not yet seen. */
  function Copies(videoQ: seq<VideoCmd>, video: VideoDecoder, notes: seq<Note>): nat {
    Count(videoQ, IsDecodeFrame) + (if video.Copying? then 1 else 0) + Count(notes, IsCopied)
  }

  function VideoAborts(videoQ: seq<VideoCmd>, video: VideoDecoder, notes: seq<Note>): nat {
    Count(videoQ, IsAbortVideo) + (if video.VideoAborting? then 1 else 0) + Count(notes, IsVideoAborted)
  }

  /** The decode-video thread has nothing to do, and all its copies have been seen. */
  predicate VideoQuiet(videoQ: seq<VideoCmd>, video: VideoDecoder, notes: seq<Note>) {
    videoQ == [] && video.VideoIdle? && Count(notes, IsCopied) == 0
  }

  ghost predicate VideoInv(d: Decode, videoQ: seq<VideoCmd>, video: VideoDecoder, notes: seq<Note>) {
    Playback(d) &&
    Copies(videoQ, video, notes) <= 1 &&
    VideoAborts(videoQ, video, notes) == (if d.mode.AwaitVideo? then 1 else 0) &&
    (d.mode.Running? && Session(d) ==> Copies(videoQ, video, notes) == if d.waitingVideo then 1 else 0) &&
    (!Session(d) ==> VideoQuiet(videoQ, video, notes)) &&
    (Count(notes, IsVideoAborted) > 0 ==> videoQ == [] && video.VideoIdle?) &&
    NoneAfter(notes, VideoAborted, IsCopied)
  }

  /** A notice of another thread. */
  lemma VideoOthers(d: Decode, videoQ: seq<VideoCmd>, video: VideoDecoder, notes: seq<Note>, n: Note)
    requires VideoInv(d, videoQ, video, notes) && !n.Copied? && !n.VideoAborted?
    ensures VideoInv(d, videoQ, video, notes + [n])
  {
    CountAppend(notes, n, IsCopied);
    CountAppend(notes, n, IsVideoAborted);
    NoneAfterAppend(notes, VideoAborted, IsCopied, n);
  }

  lemma VideoAnswers(d: Decode, videoQ: seq<VideoCmd>, notes: seq<Note>, next: VideoDecoder)
    requires VideoInv(d, videoQ, Copying, notes) && (next.VideoIdle? || next.Decoding?)
    ensures VideoInv(d, videoQ, next, notes + [Copied])
  {
    var n := Copied;
    CountAppend(notes, n, IsCopied);
    CountAppend(notes, n, IsVideoAborted);
    CountNone(notes, IsVideoAborted);
    NoneAfterAppend(notes, VideoAborted, IsCopied, n);
  }

  lemma VideoFlushed(d: Decode, videoQ: seq<VideoCmd>, notes: seq<Note>)
    requires VideoInv(d, videoQ, VideoAborting, notes)
    ensures VideoInv(d, [], VideoIdle, notes + [VideoAborted])
  {
    var n := VideoAborted;
    CountAppend(notes, n, IsCopied);
    CountAppend(notes, n, IsVideoAborted);
    NoneAfterAppend(notes, VideoAborted, IsCopied, n);
  }

  lemma VideoTook(d: Decode, videoQ: seq<VideoCmd>, notes: seq<Note>, next: VideoDecoder)
    requires VideoInv(d, videoQ, VideoIdle, notes) && videoQ != []
    requires next == match videoQ[0] case DecodeFrame => Copying case ClearVideo => ClearingVideo case AbortVideo => VideoAborting
    ensures Session(d) && VideoInv(d, videoQ[1..], next, notes)
  {
  }

  lemma VideoRests(d: Decode, videoQ: seq<VideoCmd>, video: VideoDecoder, notes: seq<Note>)
    requires VideoInv(d, videoQ, video, notes) && (video.Decoding? || video.ClearingVideo?)
    ensures VideoInv(d, videoQ, VideoIdle, notes)
  {
  }

  lemma VideoNoteSeen(d: Decode, d': Decode, videoQ: seq<VideoCmd>, video: VideoDecoder, notes: seq<Note>)
    requires VideoInv(d, videoQ, video, notes) && notes != [] && d.mode.Running? && Playback(d')
    requires d'.mode.Running? && Session(d') == Session(d) && d'.waitingVideo == (d.waitingVideo && !notes[0].Copied?)
    ensures VideoInv(d', videoQ, video, notes[1..])
  {
    NoneAfterTail(notes, VideoAborted, IsCopied);
  }

  lemma VideoNoteDropped(d: Decode, videoQ: seq<VideoCmd>, video: VideoDecoder, notes: seq<Note>)
    requires VideoInv(d, videoQ, video, notes) && notes != [] && !d.mode.Running? && !notes[0].VideoAborted?
    ensures VideoInv(d, videoQ, video, notes[1..])
  {
    NoneAfterTail(notes, VideoAborted, IsCopied);
  }

  /** The awaited notice of the decode-video thread, the last of the three: the thread is quiet. */
  lemma VideoAbortSeen(d: Decode, d': Decode, videoQ: seq<VideoCmd>, video: VideoDecoder, notes: seq<Note>)
    requires VideoInv(d, videoQ, video, notes) && notes != [] && notes[0].VideoAborted? && Playback(d')
    requires !Session(d') && (d'.mode.Running? || d'.mode.Exited?)
    ensures VideoInv(d', videoQ, video, notes[1..])
  {
    NoneAfterTail(notes, VideoAborted, IsCopied);
  }

  lemma VideoSame(d: Decode, d': Decode, videoQ: seq<VideoCmd>, video: VideoDecoder, notes: seq<Note>)
    requires VideoInv(d, videoQ, video, notes) && Playback(d') && Session(d') == Session(d)
    requires !d.mode.AwaitVideo? && !d'.mode.AwaitVideo? && (d'.mode.Running? && Session(d) ==> d.mode.Running? && d'.waitingVideo == d.waitingVideo)
    ensures VideoInv(d', videoQ, video, notes)
  {
  }

  /** A file is opened: no packet is on its way. */
  lemma VideoOpens(d: Decode, d': Decode, videoQ: seq<VideoCmd>, video: VideoDecoder, notes: seq<Note>)
    requires VideoInv(d, videoQ, video, notes) && !Session(d) && Playback(d')
    requires Session(d') && d'.mode.Running? && !d'.waitingVideo
    ensures VideoInv(d', videoQ, video, notes)
  {
    CountNone(notes, IsCopied);
  }

  lemma VideoSends(d: Decode, d': Decode, videoQ: seq<VideoCmd>, video: VideoDecoder, notes: seq<Note>, cmd: VideoCmd)
    requires VideoInv(d, videoQ, video, notes) && Session(d) && Playback(d') && Session(d')
    requires match cmd
             case DecodeFrame => d.mode.Running? && !d.waitingVideo && d'.mode.Running? && d'.waitingVideo
             case ClearVideo => d'.mode == d.mode && d'.waitingVideo == d.waitingVideo
             case AbortVideo => d.mode.AwaitConvert? && d'.mode.AwaitVideo?
    requires Count(notes, IsVideoAborted) == 0
    ensures VideoInv(d', videoQ + [cmd], video, notes)
  {
    CountAppend(videoQ, cmd, IsDecodeFrame);
    CountAppend(videoQ, cmd, IsAbortVideo);
  }

  ghost predicate VideoOk(s: Sys) {
    VideoInv(s.d, s.videoQ, s.video, s.notes)
  }

  lemma VideoObeys(s: Sys, cmd: Cmd)
    requires VideoOk(s) && s.d.mode.Running?
    ensures VideoOk(Obey(s, cmd))
  {
    ObeyKeeps(s, cmd);
    match cmd {
      case PlayRequest(found, m, buffer) =>
        if ValidMedia(m) && !Session(s.d) {
          StartKeeps(m, buffer);
          StartKeeps(m, false);
          VideoOpens(s.d, Obey(s, cmd).d, s.videoQ, s.video, s.notes);
        }
      case SeekRequest(_) =>
        if Session(s.d) {
          SeekKeeps(s.d.c, s.d.media.speaker);
          VideoSame(s.d, Obey(s, cmd).d, s.videoQ, s.video, s.notes);
        }
      case AbortRequest(end) => VideoSame(s.d, Obey(s, cmd).d, s.videoQ, s.video, s.notes);
      case _ => ControlOnly(s, cmd); VideoSame(s.d, Obey(s, cmd).d, s.videoQ, s.video, s.notes);
    }
  }

  lemma VideoSees(s: Sys, drained: bool)
    requires VideoOk(s)
    ensures VideoOk(DecodeStep(s, TakeNote(drained)))
  {
    if s.notes != [] && !s.d.mode.Exited? {
      var rest, n := s.(notes := s.notes[1..]), s.notes[0];
      if s.d.mode.Running? {
        NoticeShape(rest, n, drained);
        var r := Notice(rest, n, drained);
        VideoNoteSeen(s.d, r.d, s.videoQ, s.video, s.notes);
        if r.videoQ != s.videoQ {
          VideoSends(r.d, r.d, s.videoQ, s.video, rest.notes, ClearVideo);
        }
      } else {
        VideoAwaits(s, n);
      }
    }
  }

  lemma VideoAwaits(s: Sys, n: Note)
    requires VideoOk(s) && s.notes != [] && n == s.notes[0] && !s.d.mode.Running? && !s.d.mode.Exited?
    ensures VideoOk(Await(s.(notes := s.notes[1..]), n))
  {
    var rest := s.(notes := s.notes[1..]);
    AwaitKeeps(rest, n);
    var r := Await(rest, n);
    if n.VideoAborted? {
      assert Count(s.notes, IsVideoAborted) > 0;
      VideoAbortSeen(s.d, r.d, s.videoQ, s.video, s.notes);
    } else {
      VideoNoteDropped(s.d, s.videoQ, s.video, s.notes);
      if r.videoQ != s.videoQ {
        VideoSends(s.d, r.d, s.videoQ, s.video, rest.notes, AbortVideo);
      } else if !s.d.mode.AwaitVideo? {
        VideoSame(s.d, r.d, s.videoQ, s.video, rest.notes);
      }
    }
  }

  lemma VideoPackets(s: Sys, video: bool, pos: int, passed: bool)
    requires VideoOk(s) && s.d.mode.Running? && Active(s.d.c) && !s.d.waitingVideo
    ensures VideoOk(Packet(s, video, pos, passed))
  {
    PacketShape(s, video, pos, passed);
    var d' := Packet(s, video, pos, passed).d;
    if video && passed {
      VideoSends(s.d, d', s.videoQ, s.video, s.notes, DecodeFrame);
    } else {
      VideoSame(s.d, d', s.videoQ, s.video, s.notes);
    }
  }

  lemma VideoDecode(s: Sys, a: Action)
    requires VideoOk(s) && OfDecode(a)
    ensures VideoOk(DecodeStep(s, a))
  {
    PlaybackKept(s, a);
    match a {
      case Command(cmd) => if s.d.mode.Running? { VideoObeys(s, cmd); }
      case TakeNote(drained) => VideoSees(s, drained);
      case NoMoreToBuffer => VideoOthers(s.d, s.videoQ, s.video, s.notes, Buffered);
      case HandlePacket(video, pos, passed) =>
        if s.d.mode.Running? && Active(s.d.c) && !s.d.waitingVideo { VideoPackets(s, video, pos, passed); }
      case _ =>
    }
  }

  lemma VideoVideo(s: Sys, a: Action)
    requires VideoOk(s)
    ensures VideoOk(VideoStep(s, a))
  {
    match a {
      case VideoTakes =>
        if s.video.VideoIdle? && s.videoQ != [] {
          VideoTook(s.d, s.videoQ, s.notes,
                    match s.videoQ[0] case DecodeFrame => Copying case ClearVideo => ClearingVideo case AbortVideo => VideoAborting);
        }
      case VideoCopies(skipped) =>
        if s.video.Copying? { VideoAnswers(s.d, s.videoQ, s.notes, if skipped then VideoIdle else Decoding); }
      case VideoDecodes => if s.video.Decoding? { VideoRests(s.d, s.videoQ, s.video, s.notes); }
      case VideoClears => if s.video.ClearingVideo? { VideoRests(s.d, s.videoQ, s.video, s.notes); }
      case VideoFlushes => if s.video.VideoAborting? { VideoFlushed(s.d, s.videoQ, s.notes); }
      case _ =>
    }
  }

  lemma VideoByReader(s: Sys, a: Action)
    requires VideoOk(s)
    ensures VideoOk(ReaderStep(s, a))
  {
    VideoOthers(s.d, s.videoQ, s.video, s.notes, ReadDone(true));
    VideoOthers(s.d, s.videoQ, s.video, s.notes, ReadDone(false));
    VideoOthers(s.d, s.videoQ, s.video, s.notes, SeekDone);
    VideoOthers(s.d, s.videoQ, s.video, s.notes, ReadAborted);
  }

  lemma VideoByConverter(s: Sys, a: Action)
    requires VideoOk(s)
    ensures VideoOk(ConvertStep(s, a))
  {
    VideoOthers(s.d, s.videoQ, s.video, s.notes, Cleared);
    VideoOthers(s.d, s.videoQ, s.video, s.notes, ConvertAborted);
    VideoOthers(s.d, s.videoQ, s.video, s.notes, Underrun);
    VideoOthers(s.d, s.videoQ, s.video, s.notes, Buffered);
  }

  lemma VideoKept(s: Sys, a: Action)
    requires VideoOk(s)
    ensures VideoOk(Step(s, a))
  {
    if OfDecode(a) {
      VideoDecode(s, a);
    } else {
      VideoVideo(s, a);
      VideoByReader(s, a);
      VideoByConverter(s, a);
    }
  }
}
