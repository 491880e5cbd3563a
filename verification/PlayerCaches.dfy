/** A seek in a file with video starts only when both threads that keep pictures have cleared them for it. */
module PlayerCaches {
  import opened PlayerAborts
  import opened PlayerInvariants
  import opened PlayerMessages
  import opened PlayerModel
  import opened PlayerRuns
  import opened PlayerSeeks

  /** How far the last seek asked for has come: 1 when the file has been sought, 2 when then the decode-video thread has
      cleared its cache, 3 when then the convert thread has. */
  function Stage(actions: seq<Action>): (n: nat)
    ensures n <= 3
    decreases |actions|
  {
    if actions == [] then 0
    else StageAfter(Run(actions[..|actions| - 1]), actions[|actions| - 1], Stage(actions[..|actions| - 1]))
  }

  function StageAfter(s: Sys, a: Action, stage: nat): (n: nat)
    requires stage <= 3
    ensures n <= 3
  {
    if AsksSeek(s, a) then 0
    else if Answers(s, a) then 1
    else if a.VideoClears? && s.video.ClearingVideo? && stage == 1 then 2
    else if a.ConverterClears? && s.converter.ClearingConvert? && stage == 2 then 3
    else stage
  }

  /** Where the request to clear is: on its way to the decode-video thread or with it, then to the convert thread or
      with it, and back as a notice. */
  function Place(s: Sys): nat {
    if Count(s.videoQ, IsClear) > 0 || s.video.ClearingVideo? then 1
    else if Count(s.convertQ, IsClearConvert) > 0 || s.converter.ClearingConvert? then 2
    else 3
  }

  /** The session of a file with video, in which a seek is being prepared and a request to clear is on its way. */
  predicate Clearing(s: Sys) {
    InSession(s) && s.d.c.state.PrepareSeeking? && s.d.media.tracks > 0 && Clears(s, s.d.media.tracks) > 0
  }

  /** The request is where the seek has come to. */
  predicate Staged(s: Sys, stage: nat) {
    Clearing(s) ==> stage == Place(s)
  }

  lemma ReaderStaged(s: Sys, a: Action, stage: nat)
    requires stage <= 3 && Staged(s, stage) && (a.ReaderTakes? || a.ReaderReads? || a.ReaderInterrupted? || a.ReaderSought? || a.ReaderFlushes?)
    ensures Staged(ReaderStep(s, a), StageAfter(s, a, stage))
  {
    ReaderMoves(s, a);
  }

  /** Where the request is, with at most one. */
  lemma PlaceIs(s: Sys)
    requires s.d.media.tracks > 0 && 0 < Clears(s, s.d.media.tracks) <= 1
    ensures Place(s) == 1 <==> Count(s.videoQ, IsClear) + (if s.video.ClearingVideo? then 1 else 0) == 1
    ensures Place(s) == 2 <==> Count(s.convertQ, IsClearConvert) + (if s.converter.ClearingConvert? then 1 else 0) == 1
    ensures Place(s) == 3 <==> Count(s.notes, IsCleared) == 1
  {
  }

  lemma VideoTakesStaged(s: Sys, stage: nat)
    requires stage <= 3 && Staged(s, stage) && Clears(s, s.d.media.tracks) <= 1
    ensures Staged(VideoStep(s, VideoTakes), stage)
  {
    VideoMoves(s, VideoTakes);
    if Clearing(VideoStep(s, VideoTakes)) {
      PlaceIs(s);
      PlaceIs(VideoStep(s, VideoTakes));
    }
  }

  lemma VideoClearsStaged(s: Sys, stage: nat)
    requires stage <= 3 && Staged(s, stage) && Clears(s, s.d.media.tracks) <= 1
    ensures Staged(VideoStep(s, VideoClears), StageAfter(s, VideoClears, stage))
  {
    VideoMoves(s, VideoClears);
    CountAppend(s.convertQ, ClearConvert, IsClearConvert);
    if Clearing(VideoStep(s, VideoClears)) {
      PlaceIs(s);
      PlaceIs(VideoStep(s, VideoClears));
    }
  }

  lemma VideoStaged(s: Sys, a: Action, stage: nat)
    requires stage <= 3 && Staged(s, stage) && Clears(s, s.d.media.tracks) <= 1
    requires a.VideoTakes? || a.VideoCopies? || a.VideoDecodes? || a.VideoClears? || a.VideoFlushes?
    ensures Staged(VideoStep(s, a), StageAfter(s, a, stage))
  {
    if a.VideoTakes? {
      VideoTakesStaged(s, stage);
    } else if a.VideoClears? {
      VideoClearsStaged(s, stage);
    } else {
      VideoMoves(s, a);
      NoteAdded(s.notes, Copied);
      NoteAdded(s.notes, VideoAborted);
      if Clearing(VideoStep(s, a)) {
        PlaceIs(s);
        PlaceIs(VideoStep(s, a));
      }
    }
  }

  lemma ConverterStaged(s: Sys, a: Action, stage: nat)
    requires stage <= 3 && Staged(s, stage) && Clears(s, s.d.media.tracks) <= 1
    requires a.ConverterTakes? || a.ConverterClears? || a.ConverterFlushes? || a.FrameStarts? || a.FrameDone? || a.RunsOut? || a.HasBuffered?
    ensures Staged(ConvertStep(s, a), StageAfter(s, a, stage))
  {
    ConverterMoves(s, a);
    NoteAdded(s.notes, Cleared);
    NoteAdded(s.notes, ConvertAborted);
    NoteAdded(s.notes, Underrun);
    NoteAdded(s.notes, Buffered);
    if Clearing(ConvertStep(s, a)) {
      PlaceIs(s);
      PlaceIs(ConvertStep(s, a));
    }
  }

  /** The other threads' steps. */
  lemma OthersStaged(s: Sys, a: Action, stage: nat)
    requires stage <= 3 && Staged(s, stage) && !OfDecode(a) && (Clearing(s) ==> Clears(s, s.d.media.tracks) <= 1)
    ensures Staged(Step(s, a), StageAfter(s, a, stage))
  {
    OthersMove(s, a);
    if Clearing(Step(s, a)) {
      if a.ReaderTakes? || a.ReaderReads? || a.ReaderInterrupted? || a.ReaderSought? || a.ReaderFlushes? {
        ReaderStaged(s, a, stage);
      } else if a.VideoTakes? || a.VideoCopies? || a.VideoDecodes? || a.VideoClears? || a.VideoFlushes? {
        VideoStaged(s, a, stage);
      } else {
        ConverterStaged(s, a, stage);
      }
    }
  }

  // ---- The decode thread --------------------------------------------------------------------------------------

  lemma SeekStaged(s: Sys, pos: int, stage: nat, answered: bool)
    requires stage <= 3 && s.d.mode.Running? && OneAtATime(s, answered) && Staged(s, stage)
    ensures Staged(SeekCmd(s, pos), StageAfter(s, Command(SeekRequest(pos)), stage))
  {
    var r := SeekCmd(s, pos);
    if AsksSeek(s, Command(SeekRequest(pos))) {
      assert Clears(r, r.d.media.tracks) == Clears(s, s.d.media.tracks) == 0;
    } else {
      assert r == s;
    }
  }

  lemma ControlStaged(s: Sys, cmd: Cmd, stage: nat)
    requires stage <= 3 && Playback(s.d) && Staged(s, stage) && (cmd.PauseRequest? || cmd.ResumeRequest? || cmd.TrackRequest?)
    ensures Staged(Obey(s, cmd), stage)
  {
    ControlOnly(s, cmd);
    assert Obey(s, cmd).d.c.state.PrepareSeeking? == s.d.c.state.PrepareSeeking?;
  }

  lemma CommandStaged(s: Sys, cmd: Cmd, stage: nat, answered: bool)
    requires stage <= 3 && Playback(s.d) && s.d.mode.Running? && OneAtATime(s, answered) && Staged(s, stage)
    ensures Staged(Obey(s, cmd), StageAfter(s, Command(cmd), stage))
  {
    if cmd.SeekRequest? {
      SeekStaged(s, cmd.pos, stage, answered);
    } else if cmd.PauseRequest? || cmd.ResumeRequest? || cmd.TrackRequest? {
      ControlStaged(s, cmd, stage);
    } else {
      NotPrepared(s, cmd);
    }
  }

  /** Behind a request to play or to abort no seek is being prepared, or nothing has changed. */
  lemma NotPrepared(s: Sys, cmd: Cmd)
    requires s.d.mode.Running? && (cmd.PlayRequest? || cmd.AbortRequest?)
    ensures var r := Obey(s, cmd); r == s || !InSession(r) || !r.d.c.state.PrepareSeeking?
  {
  }

  lemma NoteStaged(s: Sys, drained: bool, stage: nat, answered: bool)
    requires stage <= 3 && Playback(s.d) && s.d.mode.Running? && s.notes != [] && OneAtATime(s, answered) && Staged(s, stage)
    ensures Staged(DecodeStep(s, TakeNote(drained)), StageAfter(s, TakeNote(drained), stage))
  {
    var rest, n := s.(notes := s.notes[1..]), s.notes[0];
    NoteTaken(s, rest);
    if n.SeekDone? {
      CountAppend(s.videoQ, ClearVideo, IsClear);
    } else if !n.Cleared? {
      OtherNotice(rest, n, drained);
    }
  }

  lemma DecodeStaged(s: Sys, a: Action, stage: nat, answered: bool)
    requires stage <= 3 && Playback(s.d) && OfDecode(a) && OneAtATime(s, answered) && Staged(s, stage)
    ensures Staged(DecodeStep(s, a), StageAfter(s, a, stage))
  {
    match a {
      case Command(cmd) => if s.d.mode.Running? { CommandStaged(s, cmd, stage, answered); }
      case TakeNote(drained) =>
        if s.notes != [] && s.d.mode.Running? {
          NoteStaged(s, drained, stage, answered);
        } else if s.notes != [] && !s.d.mode.Exited? {
          AwaitEnds(s.(notes := s.notes[1..]), s.notes[0]);
        }
      case HandlePacket(video, pos, passed) =>
        if s.d.mode.Running? && Active(s.d.c) { PacketShape(s, video, pos, passed); }
      case _ =>
    }
  }

  /** In a session that was opened with nothing left to clear, the request is where the seek has come to. */
  lemma {:induction false} StagedAlways(actions: seq<Action>)
    ensures Clean(actions) ==> Staged(Run(actions), Stage(actions))
    decreases |actions|
  {
    if actions != [] {
      var init, a := actions[..|actions| - 1], actions[|actions| - 1];
      StagedAlways(init);
      PlaybackAlways(init);
      OneAtATimeAlways(init);
      if !Opens(Run(init), a) && Clean(init) {
        if OfDecode(a) {
          DecodeStaged(Run(init), a, Stage(init), Answered(init));
        } else {
          OthersStaged(Run(init), a, Stage(init));
        }
      }
    }
  }

  /** In such a session of a file with video a seek starts only when the file has been sought for it, and then the
      decode-video thread and then the convert thread have cleared their caches. */
  lemma StartsWhenCleared(actions: seq<Action>, a: Action)
    requires Clean(actions) && Run(actions).d.media.tracks > 0
    requires Run(actions).d.c.state.PrepareSeeking? && Run(actions + [a]).d.c.state.Seeking?
    ensures Stage(actions) == 3
  {
    var s := Run(actions);
    RunAppend(actions, a);
    StartsRunning(s, a);
    StagedAlways(actions);
    PlaybackAlways(actions);
    OneAtATimeAlways(actions);
    StartNotice(s, a);
    NoteTaken(s, s.(notes := s.notes[1..]));
    PlaceIs(s);
  }

  lemma StartNotice(s: Sys, a: Action)
    requires Playback(s.d) && s.d.c.state.PrepareSeeking? && Step(s, a).d.c.state.Seeking? && s.d.media.tracks > 0
    ensures a.TakeNote? && s.d.mode.Running? && Session(s.d) && s.notes != [] && s.notes[0].Cleared?
  {
    StartsRunning(s, a);
    if !OfDecode(a) {
      OnlyDecodeWrites(s, a);
    } else if a.Command? {
      CommandStartsNone(s, a.cmd);
    } else if a.TakeNote? && s.notes != [] && !s.notes[0].Cleared? {
      NoticeStartsNone(s.(notes := s.notes[1..]), s.notes[0], a.drained);
    }
  }

  lemma CommandStartsNone(s: Sys, cmd: Cmd)
    requires Playback(s.d) && s.d.c.state.PrepareSeeking?
    ensures !Obey(s, cmd).d.c.state.Seeking?
  {
    if cmd.PauseRequest? || cmd.ResumeRequest? || cmd.TrackRequest? {
      ControlOnly(s, cmd);
      ControlStartsNone(s.d.c, s.d.media.speaker, cmd);
    } else if cmd.PlayRequest? {
      assert Obey(s, cmd) == s;
    }
  }

  lemma ControlStartsNone(c: Control, speaker: bool, cmd: Cmd)
    requires c.state.PrepareSeeking?
    ensures PauseCmd(c, speaker).state.PrepareSeeking? && ResumeCmd(c, speaker).state.PrepareSeeking?
    ensures forall changed :: TrackCmd(c, speaker, changed).state.PrepareSeeking?
  {
  }

  lemma NoticeStartsNone(s: Sys, n: Note, drained: bool)
    requires s.d.c.state.PrepareSeeking? && s.d.media.tracks > 0 && !n.Cleared?
    ensures !Notice(s, n, drained).d.c.state.Seeking?
  {
  }
}
