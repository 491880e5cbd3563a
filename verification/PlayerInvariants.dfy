/** What every run of the player keeps. */
module PlayerInvariants {
  import opened PlayerModel

  // ---- Playback follows what the user asked for -----------------------------------------------------

  /** With a file open: RESUME_LATER is set only while buffering or seeking; playing, or resuming later, is what
      was last asked for; and while playing an open speaker runs. */
  predicate Follows(c: Control, speaker: bool) {
    if Open(c) then
      (c.resumeLater ==> c.state.Buffering? || c.state.PrepareSeeking? || c.state.Seeking?) &&
      (c.intent <==> c.state.Playing? || c.resumeLater) &&
      (speaker && c.state.Playing? ==> !c.paused)
    else !c.resumeLater && !speaker
  }

  /** The wait for a backward seek is on only during a seek; and while it is on, the packets looked at and those
      still to be ignored or waited for are as many as at the start. */
  predicate Bounded(w: Wait, c: Control, threads: nat) {
    (w.backward ==> c.state.PrepareSeeking? || c.state.Seeking?) &&
    (w.backward && c.state.Seeking? ==>
       w.packets + w.waitCount + w.backwardTimeout == SEEK_IGNORE_PACKETS + threads + SEEK_BACKWARD_TIMEOUT)
  }

  predicate Playback(d: Decode) {
    ValidMedia(d.media) && Follows(d.c, d.media.speaker) && Bounded(d.wait, d.c, d.media.threads) &&
    (Session(d) || d.mode.Running? || d.mode.Exited?)
  }

  lemma StartKeeps(m: Media, buffer: bool)
    ensures Follows(StartControl(m, buffer), m.speaker) && Open(StartControl(m, buffer))
  {
  }

  lemma PauseKeeps(c: Control, speaker: bool)
    requires Follows(c, speaker)
    ensures Follows(PauseCmd(c, speaker), speaker) && PauseCmd(c, speaker).state.Seeking? == c.state.Seeking?
    ensures Open(c) ==> Open(PauseCmd(c, speaker)) && !PauseCmd(c, speaker).intent
  {
  }

  lemma ResumeKeeps(c: Control, speaker: bool)
    requires Follows(c, speaker)
    ensures Follows(ResumeCmd(c, speaker), speaker) && ResumeCmd(c, speaker).state.Seeking? == c.state.Seeking?
    ensures Open(c) ==> Open(ResumeCmd(c, speaker)) && ResumeCmd(c, speaker).intent
  {
  }

  lemma TrackKeeps(c: Control, speaker: bool, changed: bool)
    requires Follows(c, speaker)
    ensures var r := TrackCmd(c, speaker, changed); Follows(r, speaker) && r == c.(paused := r.paused)
  {
  }

  lemma SeekKeeps(c: Control, speaker: bool)
    requires Follows(c, speaker) && Open(c)
    ensures Follows(SeekControl(c, speaker), speaker) && SeekControl(c, speaker).state.PrepareSeeking?
  {
  }

  lemma RestartKeeps(c: Control, speaker: bool)
    requires Follows(c, speaker) && (c.state.Buffering? || c.state.Seeking?)
    ensures var r := Restart(c, speaker); Follows(r, speaker) && (r.state.Playing? || r.state.Pause?)
  {
  }

  lemma RebufferKeeps(c: Control, speaker: bool)
    requires Follows(c, speaker) && (c.state.Playing? || c.state.Pause?)
    ensures Follows(Rebuffer(c, speaker), speaker) && Rebuffer(c, speaker).state.Buffering?
  {
  }

  lemma ObeyKeeps(s: Sys, cmd: Cmd)
    requires Playback(s.d)
    ensures Playback(Obey(s, cmd).d)
  {
    var c, speaker := s.d.c, s.d.media.speaker;
    match cmd {
      case PlayRequest(_, m, buffer) => StartKeeps(m, buffer); StartKeeps(m, false);
      case PauseRequest => PauseKeeps(c, speaker);
      case ResumeRequest => ResumeKeeps(c, speaker);
      case TrackRequest(changed) => TrackKeeps(c, speaker, changed);
      case SeekRequest(_) => if Open(c) { SeekKeeps(c, speaker); }
      case AbortRequest(_) =>
    }
  }

  lemma BeginSeekKeeps(d: Decode, threads: nat)
    requires Playback(d) && d.c.state.PrepareSeeking? && threads == d.media.threads
    ensures Playback(StartSeeking(d, threads))
  {
  }

  lemma UnderrunKeeps(s: Sys, drained: bool)
    requires Playback(s.d)
    ensures Playback(Notice(s, Underrun, drained).d)
  {
    if s.d.c.state.Playing? || s.d.c.state.Pause? {
      RebufferKeeps(s.d.c, s.d.media.speaker);
    }
  }

  lemma NoticeKeeps(s: Sys, n: Note, drained: bool)
    requires Playback(s.d)
    ensures Playback(Notice(s, n, drained).d)
  {
    match n {
      case Buffered => if s.d.c.state.Buffering? { RestartKeeps(s.d.c, s.d.media.speaker); }
      case Underrun => UnderrunKeeps(s, drained);
      case SeekDone => if s.d.c.state.PrepareSeeking? && s.d.media.tracks == 0 { BeginSeekKeeps(s.d, 0); }
      case Cleared => if s.d.c.state.PrepareSeeking? { BeginSeekKeeps(s.d, s.d.media.threads); }
      case _ =>
    }
  }

  lemma TickKeeps(w: Wait, c: Control, threads: nat)
    requires Bounded(w, c, threads)
    ensures Bounded(Tick(w), c, threads)
  {
  }

  lemma SeekPacketKeeps(d: Decode, pos: int)
    requires Playback(d) && d.c.state.Seeking?
    ensures Playback(SeekPacket(d, pos))
  {
    var behind := pos == 0 || pos < d.seekStartPos || !d.media.normal;
    var w := Jump(d.wait, behind);
    JumpKeeps(d.wait, d.c, d.media.threads, behind);
    if w.backward || pos < d.seekPos {
      LookKeeps(d, w, d.c);
    } else {
      ArriveKeeps(d.c, d.media);
      LookKeeps(d, w, Arrive(d.c, d.media));
    }
  }

  lemma LookKeeps(d: Decode, w: Wait, c: Control)
    requires Playback(d) && d.c.state.Seeking? && Bounded(w, d.c, d.media.threads)
    requires Follows(c, d.media.speaker) && Open(c) && (w.backward ==> c == d.c)
    ensures Playback(d.(c := c, wait := Tick(w)))
  {
    TickKeeps(w, d.c, d.media.threads);
  }

  lemma JumpKeeps(w: Wait, c: Control, threads: nat, behind: bool)
    requires Bounded(w, c, threads)
    ensures Bounded(Jump(w, behind), c, threads)
  {
  }

  lemma ArriveKeeps(c: Control, m: Media)
    requires Follows(c, m.speaker) && c.state.Seeking?
    ensures Follows(Arrive(c, m), m.speaker) && Open(Arrive(c, m))
  {
    RestartKeeps(c, m.speaker);
  }

  lemma PacketKeeps(s: Sys, video: bool, pos: int, passed: bool)
    requires Playback(s.d)
    ensures Playback(Packet(s, video, pos, passed).d)
  {
    if Counts(s.d, video) {
      SeekPacketKeeps(s.d, pos);
    }
  }

  lemma AwaitKeeps(s: Sys, n: Note)
    requires Playback(s.d)
    ensures Playback(Await(s, n).d)
  {
    match s.d.mode {
      case AwaitRead(end) =>
      case AwaitConvert(end) =>
      case AwaitVideo(end) =>
      case _ =>
    }
  }

  /** The steps of the decode thread and the user interface. */
  predicate OfDecode(a: Action) {
    a.SetSeekPos? || a.Command? || a.TakeNote? || a.ReadMore? || a.NoMoreToBuffer? || a.HandlePacket?
  }

  /** No other thread changes the player's state. */
  lemma OnlyDecodeWrites(s: Sys, a: Action)
    requires !OfDecode(a)
    ensures Step(s, a).d == s.d
  {
  }

  lemma DecodeKeeps(s: Sys, a: Action)
    requires Playback(s.d) && OfDecode(a)
    ensures Playback(DecodeStep(s, a).d)
  {
    match a {
      case Command(cmd) => ObeyKeeps(s, cmd);
      case TakeNote(drained) =>
        if s.notes != [] {
          var rest := s.(notes := s.notes[1..]);
          if s.d.mode.Running? { NoticeKeeps(rest, s.notes[0], drained); } else { AwaitKeeps(rest, s.notes[0]); }
        }
      case HandlePacket(video, pos, passed) => PacketKeeps(s, video, pos, passed);
      case _ =>
    }
  }

  lemma PlaybackKept(s: Sys, a: Action)
    requires Playback(s.d)
    ensures Playback(Step(s, a).d)
  {
    if OfDecode(a) {
      DecodeKeeps(s, a);
    } else {
      OnlyDecodeWrites(s, a);
    }
  }

  lemma {:induction false} PlaybackAlways(actions: seq<Action>)
    ensures Playback(Run(actions).d)
    decreases |actions|
  {
    if actions != [] {
      PlaybackAlways(actions[..|actions| - 1]);
      PlaybackKept(Run(actions[..|actions| - 1]), actions[|actions| - 1]);
    }
  }

  /** SEEK_BACKWARD_WAIT is cleared at the latest by the packet after the ignored ones, one a frame thread,
      and the timeout. */
  lemma SeekWaitEnds(actions: seq<Action>)
    ensures var d := Run(actions).d;
            d.c.state.Seeking? && d.wait.packets > SEEK_IGNORE_PACKETS + d.media.threads + SEEK_BACKWARD_TIMEOUT ==>
              !d.wait.backward
  {
    PlaybackAlways(actions);
  }

  /** The step is one in which the seek looks at a packet. */
  predicate Looks(s: Sys, a: Action) {
    a.HandlePacket? && s.d.mode.Running? && !s.d.waitingVideo && Counts(s.d, a.video)
  }

  /** From one state of the decode thread to the next: a seek starts with no packets looked at and keeps their
      number, and once started is left only by another seek or by closing the file. */
  predicate Moves(d: Decode, d': Decode) {
    (!d.c.state.Seeking? && d'.c.state.Seeking? ==> d'.wait.packets == 0) &&
    (d.c.state.Seeking? && d'.c.state.Seeking? ==> d'.wait.packets == d.wait.packets) &&
    (d.c.state.Seeking? ==> d'.c.state.Seeking? || !Active(d'.c))
  }

  /** A packet that a seek looks at is counted, and ends the seek only at or past the target with the wait over. */
  predicate Looked(d: Decode, d': Decode, pos: int) {
    d'.wait.packets == d.wait.packets + 1 && Active(d'.c) &&
    (!d'.c.state.Seeking? ==>
       pos >= d.seekPos && !d'.wait.backward &&
       (d.wait.backward ==> d.wait.waitCount == 0 && (pos == 0 || pos < d.seekStartPos || !d.media.normal)))
  }

  /** A seek counts the packets it looks at, and completes only at one of them, with the wait over and the
      playback at or past the target. */
  lemma SeekCompletes(s: Sys, a: Action)
    ensures var d' := Step(s, a).d; if Looks(s, a) then Looked(s.d, d', a.pos) else Moves(s.d, d')
  {
    if OfDecode(a) {
      DecodeMoves(s, a);
      assert Step(s, a) == DecodeStep(s, a);
    } else {
      OnlyDecodeWrites(s, a);
      assert Step(s, a).d == s.d;
    }
  }

  lemma DecodeMoves(s: Sys, a: Action)
    requires OfDecode(a)
    ensures var d' := DecodeStep(s, a).d; if Looks(s, a) then Looked(s.d, d', a.pos) else Moves(s.d, d')
  {
    match a {
      case Command(cmd) => ObeyMoves(s, cmd);
      case TakeNote(drained) =>
        if s.notes != [] {
          var rest := s.(notes := s.notes[1..]);
          if s.d.mode.Running? { NoticeMoves(rest, s.notes[0], drained); } else { AwaitMoves(rest, s.notes[0]); }
        }
      case HandlePacket(video, pos, passed) => PacketMoves(s, video, pos, passed);
      case _ =>
    }
  }

  lemma PacketMoves(s: Sys, video: bool, pos: int, passed: bool)
    ensures var d' := Packet(s, video, pos, passed).d;
            if Counts(s.d, video) then Looked(s.d, d', pos) else Moves(s.d, d')
  {
  }

  lemma ObeyMoves(s: Sys, cmd: Cmd)
    ensures Moves(s.d, Obey(s, cmd).d)
  {
  }

  lemma NoticeMoves(s: Sys, n: Note, drained: bool)
    ensures Moves(s.d, Notice(s, n, drained).d)
  {
  }

  lemma AwaitMoves(s: Sys, n: Note)
    ensures Moves(s.d, Await(s, n).d)
  {
  }

  /** What the user asked for changes only when a play request without a file, or a pause or resume request
      with one, is handled, and to what that asks for. */
  lemma IntentIsTheUsers(s: Sys, a: Action)
    requires s.d.c.intent != Step(s, a).d.c.intent
    ensures a.Command? && (if Session(s.d) then a.cmd.PauseRequest? || a.cmd.ResumeRequest? else a.cmd.PlayRequest?)
    ensures Step(s, a).d.c.intent == !a.cmd.PauseRequest?
  {
    if a.Command? {
      ObeyIntent(s, a.cmd);
    } else if OfDecode(a) {
      OthersIntent(s, a);
    } else {
      OnlyDecodeWrites(s, a);
    }
  }

  lemma OthersIntent(s: Sys, a: Action)
    requires OfDecode(a) && !a.Command?
    ensures DecodeStep(s, a).d.c.intent == s.d.c.intent
  {
    match a {
      case TakeNote(drained) =>
        if s.notes != [] {
          var rest := s.(notes := s.notes[1..]);
          if s.d.mode.Running? { NoticeIntent(rest, s.notes[0], drained); } else { AwaitIntent(rest, s.notes[0]); }
        }
      case _ =>
    }
  }

  lemma ObeyIntent(s: Sys, cmd: Cmd)
    requires s.d.c.intent != Obey(s, cmd).d.c.intent
    ensures if Session(s.d) then cmd.PauseRequest? || cmd.ResumeRequest? else cmd.PlayRequest?
    ensures Obey(s, cmd).d.c.intent == !cmd.PauseRequest?
  {
    match cmd {
      case PlayRequest(_, _, _) =>
      case PauseRequest =>
      case ResumeRequest =>
      case _ =>
    }
  }

  lemma NoticeIntent(s: Sys, n: Note, drained: bool)
    ensures Notice(s, n, drained).d.c.intent == s.d.c.intent
  {
    match n {
      case SeekDone =>
      case Underrun =>
      case Buffered =>
      case Cleared =>
      case _ =>
    }
  }

  lemma AwaitIntent(s: Sys, n: Note)
    ensures Await(s, n).d.c.intent == s.d.c.intent
  {
  }
}
