/** What the decode thread does in place to the player's state when it handles a command, a notification or a packet.
    Every handler keeps the invariant that the runs of the model keep, and makes the model's step. */
module PlayerThreads {
  import opened PlayerInvariants
  import opened PlayerModel

  /** What this object holds of the decode thread's state. */
  datatype Held = Held(c: Control, wait: Wait, media: Media, eof: bool, seekPos: int, seekStartPos: int)

  function HeldBy(d: Decode): Held {
    Held(d.c, d.wait, d.media, d.eof, d.seekPos, d.seekStartPos)
  }

  /** Obeying a command takes the model from h to h', whatever the other threads and the queues hold. */
  ghost predicate Obeys(h: Held, cmd: Cmd, h': Held) {
    forall s: Sys | HeldBy(s.d) == h :: HeldBy(Obey(s, cmd).d) == h'
  }

  ghost predicate Notices(h: Held, n: Note, drained: bool, h': Held) {
    forall s: Sys | HeldBy(s.d) == h :: HeldBy(Notice(s, n, drained).d) == h'
  }

  ghost predicate Handles(h: Held, video: bool, pos: int, passed: bool, h': Held) {
    forall s: Sys | HeldBy(s.d) == h :: HeldBy(Packet(s, video, pos, passed).d) == h'
  }

  ghost predicate Closes(h: Held, end: Ending, h': Held) {
    forall d: Decode | HeldBy(d) == h :: HeldBy(Closed(d, end)) == h'
  }

  lemma SeekObeyed(h: Held, pos: int, h': Held)
    requires h' == if Open(h.c) && !h.c.state.PrepareSeeking?
                   then h.(c := SeekControl(h.c, h.media.speaker), wait := h.wait.(backward := pos > h.seekPos), eof := false, seekStartPos := pos)
                   else h
    ensures Obeys(h, Cmd.SeekRequest(pos), h')
  {
  }

  lemma PacketHandled(h: Held, video: bool, pos: int, passed: bool, h': Held)
    requires if h.c.state.Seeking? && (video || !h.media.normal) then
               var w := Jump(h.wait, pos == 0 || pos < h.seekStartPos || !h.media.normal);
               h' == h.(c := if w.backward || pos < h.seekPos then h.c else Arrive(h.c, h.media), wait := Tick(w))
             else h' == h
    ensures Handles(h, video, pos, passed, h')
  {
  }

  lemma ControlObeyed(h: Held, cmd: Cmd, h': Held)
    requires cmd.PauseRequest? || cmd.ResumeRequest? || cmd.TrackRequest?
    requires h' == h.(c := match cmd
                           case PauseRequest => PauseCmd(h.c, h.media.speaker)
                           case ResumeRequest => ResumeCmd(h.c, h.media.speaker)
                           case TrackRequest(changed) => TrackCmd(h.c, h.media.speaker, changed)
                           case _ => h.c)
    ensures Obeys(h, cmd, h')
  {
  }

  class Player {
    var state: State
    var resumeLater: bool
    var seekBackwardWait: bool
    var speakerPaused: bool
    var media: Media
    var isEof: bool
    var waitCount: nat
    var backwardTimeout: nat
    var seekPos: int
    var seekStartPos: int

    ghost var intent: bool
    ghost var packets: nat

    ghost function Controls(): Control
      reads this`state, this`resumeLater, this`speakerPaused, this`intent
    {
      Control(state, resumeLater, speakerPaused, intent)
    }

    ghost function Waits(): Wait
      reads this`seekBackwardWait, this`waitCount, this`backwardTimeout, this`packets
    {
      Wait(seekBackwardWait, waitCount, backwardTimeout, packets)
    }

    ghost function Holds(): Held
      reads this
    {
      Held(Controls(), Waits(), media, isEof, seekPos, seekStartPos)
    }

    /** The invariant of runs, for what this object holds. */
    ghost predicate Valid()
      reads this
    {
      ValidMedia(media) && Follows(Controls(), media.speaker) && Bounded(Waits(), Controls(), media.threads)
    }

    predicate HasFile()
      reads this`state
    {
      !state.Idle? && !state.PreparePlaying?
    }

    /** The player plays, or will once it has buffered or sought. */
    predicate Continues()
      reads this`state, this`resumeLater
    {
      state.Playing? || resumeLater
    }

    constructor ()
      ensures Valid() && !HasFile() && Holds() == HeldBy(START.d)
    {
      state, resumeLater, seekBackwardWait, speakerPaused := Idle, false, false, false;
      media, isEof, seekPos, seekStartPos := NO_MEDIA, false, 0, 0;
      waitCount, backwardTimeout := SEEK_IGNORE_PACKETS, SEEK_BACKWARD_TIMEOUT;
      intent, packets := false, 0;
    }

    // ---- The speaker ---------------------------------------------------------------------------------

    method PauseTheSpeaker()
      modifies this`speakerPaused
      ensures speakerPaused == (old(speakerPaused) || media.speaker)
    {
      if media.speaker {
        speakerPaused := true;
      }
    }

    method ResumeTheSpeaker()
      modifies this`speakerPaused
      ensures speakerPaused == (old(speakerPaused) && !media.speaker)
    {
      if media.speaker {
        speakerPaused := false;
      }
    }

    // ---- Commands ------------------------------------------------------------------------------------

    /** What a play request resets. */
    method InitData(m: Media)
      modifies this
      ensures Controls() == Control(Playing, false, false, true) && media == m && !isEof && seekPos == 0 && seekStartPos == 0
      ensures Waits() == old(Waits()).(backward := false, waitCount := SEEK_IGNORE_PACKETS)
    {
      state, resumeLater, seekBackwardWait, speakerPaused, media := Playing, false, false, false, m;
      isEof, waitCount, seekPos, seekStartPos := false, SEEK_IGNORE_PACKETS, 0, 0;
      intent := true;
    }

    method BufferFirst()
      modifies this`state, this`resumeLater, this`speakerPaused
      ensures Controls() == PauseSpeaker(old(Controls()).(state := Buffering, resumeLater := true), media.speaker)
    {
      PauseTheSpeaker();
      resumeLater := true;
      state := Buffering;
    }

    /** Opens a file: playback has started, or will after buffering, and an open speaker runs exactly in the
        first case. */
    method PlayRequested(found: bool, m: Media, buffer: bool)
      requires Valid() && !HasFile() && ValidMedia(m)
      modifies this
      ensures Valid() && Obeys(old(Holds()), Cmd.PlayRequest(found, m, buffer), Holds())
      ensures HasFile() && Continues() && intent && media == m && !isEof && !seekBackwardWait
      ensures state == if found && buffer && m.normal then Buffering else Playing
      ensures m.speaker ==> speakerPaused == !state.Playing?
    {
      InitData(m);
      if found && buffer && m.normal {
        BufferFirst();
      }
    }

    /** Whatever it was doing, the player does not play and will not resume. */
    method PauseRequested()
      requires Valid()
      modifies this`state, this`resumeLater, this`speakerPaused, this`intent
      ensures Valid() && Obeys(old(Holds()), Cmd.PauseRequest, Holds())
      ensures HasFile() == old(HasFile())
      ensures HasFile() ==> !Continues() && !intent && (media.speaker && old(state).Playing? ==> speakerPaused)
      ensures HasFile() && !old(state).Playing? ==> state == old(state) && speakerPaused == old(speakerPaused)
    {
      ghost var was := Holds();
      if !state.Idle? && !state.PreparePlaying? {
        intent := false;
        if state.Playing? {
          PauseTheSpeaker();
          state := Pause;
        } else if !state.Pause? {
          resumeLater := false;
        }
      }
      ControlObeyed(was, Cmd.PauseRequest, Holds());
    }

    /** Whatever it was doing, the player plays or will resume. */
    method ResumeRequested()
      requires Valid()
      modifies this`state, this`resumeLater, this`speakerPaused, this`intent
      ensures Valid() && Obeys(old(Holds()), Cmd.ResumeRequest, Holds())
      ensures HasFile() == old(HasFile())
      ensures HasFile() ==> Continues() && intent && (media.speaker && state.Playing? ==> !speakerPaused)
      ensures HasFile() && !old(state).Pause? ==> state == old(state) && speakerPaused == old(speakerPaused)
    {
      ghost var was := Holds();
      if !state.Idle? && !state.PreparePlaying? {
        intent := true;
        if state.Pause? {
          ResumeTheSpeaker();
          state := Playing;
        } else if !state.Playing? {
          resumeLater := true;
        }
      }
      ControlObeyed(was, Cmd.ResumeRequest, Holds());
    }

    /** Whatever the player was doing, the speaker runs from now on; nothing else changes. */
    method AudioTrackRequested(changed: bool)
      requires Valid()
      modifies this`speakerPaused
      ensures Valid() && Obeys(old(Holds()), Cmd.TrackRequest(changed), Holds())
      ensures speakerPaused == (old(speakerPaused) && !(HasFile() && changed && media.speaker))
    {
      if state.Idle? || state.PreparePlaying? {
        return;
      }
      if changed {
        ResumeTheSpeaker();
      }
    }

    method PrepareSeek()
      modifies this`state, this`resumeLater, this`speakerPaused
      ensures Controls() == SeekControl(old(Controls()), media.speaker)
    {
      if state.Playing? {
        PauseTheSpeaker();
        resumeLater := true;
      } else if state.Pause? {
        resumeLater := false;
      }
      state := PrepareSeeking;
    }

    /** The seek is prepared, and keeps in mind whether to play afterwards; it will wait to go back exactly if the
        target lies behind. */
    method SeekRequested(pos: int) returns (asked: bool)
      requires Valid()
      modifies this`state, this`resumeLater, this`speakerPaused, this`seekBackwardWait, this`isEof, this`seekStartPos
      ensures Valid() && asked == (HasFile() && !old(state).PrepareSeeking?)
      ensures Obeys(old(Holds()), Cmd.SeekRequest(pos), Holds())
      ensures HasFile() == old(HasFile()) && (HasFile() ==> state.PrepareSeeking? && Continues() == old(Continues()))
      ensures asked ==> seekBackwardWait == (pos > seekPos) && seekStartPos == pos && !isEof
      ensures asked && old(state).Playing? && media.speaker ==> speakerPaused
      ensures !asked ==> seekBackwardWait == old(seekBackwardWait) && seekStartPos == old(seekStartPos) && isEof == old(isEof)
    {
      ghost var was := Holds();
      asked := !state.Idle? && !state.PreparePlaying? && !state.PrepareSeeking?;
      if asked {
        PrepareSeek();
        seekStartPos := pos;
        seekBackwardWait := seekStartPos > seekPos;
        isEof := false;
      }
      SeekObeyed(was, pos, Holds());
    }

    /** An abort has ended: the file and the speaker are closed, and nothing is played or resumed. */
    method PlaybackAborted(end: Ending)
      requires Valid()
      modifies this`state, this`resumeLater, this`seekBackwardWait, this`media
      ensures Valid() && !HasFile() && !Continues() && !media.speaker && !seekBackwardWait
      ensures Closes(old(Holds()), end, Holds()) && media == old(media).(speaker := false)
      ensures state == if end.PlayNext? then PreparePlaying else Idle
    {
      media := media.(speaker := false);
      resumeLater, seekBackwardWait := false, false;
      state := if end.PlayNext? then PreparePlaying else Idle;
    }

    // ---- Notifications -------------------------------------------------------------------------------

    /** The caches are clear: the seek begins, with as many packets before it as the wait can last. */
    method BeginSeeking(threads: nat)
      requires Valid() && state.PrepareSeeking? && threads == media.threads
      modifies this`state, this`waitCount, this`backwardTimeout, this`packets
      ensures Valid() && state.Seeking? && packets == 0
      ensures waitCount == 5 + media.threads && backwardTimeout == 20
    {
      waitCount := SEEK_IGNORE_PACKETS + threads;
      backwardTimeout := SEEK_BACKWARD_TIMEOUT;
      packets := 0;
      state := Seeking;
    }

    /** The file has been sought: without video tracks the seek begins; otherwise the caches are to be cleared first. */
    method SeekFinished() returns (clear: bool)
      requires Valid()
      modifies this`state, this`waitCount, this`backwardTimeout, this`packets
      ensures Valid() && clear == (old(state).PrepareSeeking? && media.tracks > 0)
      ensures state == if old(state).PrepareSeeking? && media.tracks == 0 then Seeking else old(state)
      ensures state == old(state) ==> Waits() == old(Waits())
      ensures forall drained :: Notices(old(Holds()), SeekDone, drained, Holds())
    {
      clear := state.PrepareSeeking? && media.tracks > 0;
      if state.PrepareSeeking? && media.tracks == 0 {
        BeginSeeking(0);
      }
    }

    /** The caches are clear: a seek that is being prepared begins, anything else goes on. */
    method CachesCleared()
      requires Valid()
      modifies this`state, this`waitCount, this`backwardTimeout, this`packets
      ensures Valid() && state == if old(state).PrepareSeeking? then Seeking else old(state)
      ensures if old(state).PrepareSeeking? then Waits() == Wait(seekBackwardWait, 5 + media.threads, 20, 0) else Waits() == old(Waits())
      ensures forall drained :: Notices(old(Holds()), Cleared, drained, Holds())
    {
      if state.PrepareSeeking? {
        BeginSeeking(media.threads);
      }
    }

    method ReadFinished(eof: bool)
      modifies this`isEof
      ensures isEof == (old(isEof) || eof)
      ensures forall drained :: Notices(old(Holds()), ReadDone(eof), drained, Holds())
    {
      if eof {
        isEof := true;
      }
    }

    /** Buffering or seeking is over: the player plays or pauses, as was last asked for. */
    method RestartPlayback()
      requires Follows(Controls(), media.speaker) && (state.Buffering? || state.Seeking?)
      modifies this`state, this`resumeLater, this`speakerPaused
      ensures Follows(Controls(), media.speaker) && Controls() == Restart(old(Controls()), media.speaker)
      ensures state == if intent then Playing else Pause
      ensures !resumeLater && (media.speaker && state.Playing? ==> !speakerPaused)
    {
      if resumeLater {
        resumeLater := false;
        ResumeTheSpeaker();
        state := Playing;
      } else {
        state := Pause;
      }
    }

    method BufferingFinished()
      requires Valid()
      modifies this`state, this`resumeLater, this`speakerPaused
      ensures Valid() && (state == old(state) || old(state).Buffering?)
      ensures forall drained :: Notices(old(Holds()), Buffered, drained, Holds())
      ensures old(state).Buffering? ==> state == (if intent then Playing else Pause) && !resumeLater
    {
      if state.Buffering? {
        RestartPlayback();
      }
    }

    /** The converter has run out of pictures: unless the file is at its end, the player buffers, with the speaker
        paused if it was playing, and goes on as was last asked for. */
    method OutOfBuffer(drained: bool)
      requires Valid()
      modifies this`state, this`resumeLater, this`speakerPaused
      ensures Valid() && HasFile() == old(HasFile()) && (HasFile() ==> Continues() == old(Continues()))
      ensures state == if (old(state).Playing? || old(state).Pause?) && !(isEof && drained) then Buffering else old(state)
      ensures Notices(old(Holds()), Underrun, drained, Holds())
      ensures media.speaker && old(state).Playing? && !state.Playing? ==> speakerPaused
    {
      if (!state.Playing? && !state.Pause?) || (isEof && drained) {
        return;
      }
      if state.Playing? {
        PauseTheSpeaker();
        resumeLater := true;
      } else {
        resumeLater := false;
      }
      state := Buffering;
    }

    // ---- Packets of a seek ---------------------------------------------------------------------------

    /** A backward seek has been seen to go back. */
    method MadeSure(isBehind: bool)
      modifies this`seekBackwardWait
      ensures Waits() == Jump(old(Waits()), isBehind)
    {
      if seekBackwardWait && waitCount == 0 && isBehind {
        seekBackwardWait := false;
      }
    }

    method CountPacket()
      requires Bounded(Waits(), Controls(), media.threads)
      modifies this`seekBackwardWait, this`waitCount, this`backwardTimeout, this`packets
      ensures Waits() == Tick(old(Waits())) && Bounded(Waits(), Controls(), media.threads)
    {
      packets := packets + 1;
      if waitCount > 0 {
        waitCount := waitCount - 1;
      } else if backwardTimeout > 0 {
        backwardTimeout := backwardTimeout - 1;
      } else {
        seekBackwardWait := false;
      }
    }

    /** A packet that the seek looks at: the seek ends exactly if the playback is at the target or past it and not
        waiting to go back, and then playback goes on, after buffering if the file has normal videos, as was last
        asked for; the wait is over at the latest when the packet after all those to be ignored or waited for has
        been counted. */
    method SeekOver(pos: int)
      requires Valid() && state.Seeking?
      modifies this`state, this`resumeLater, this`speakerPaused, this`seekBackwardWait, this`waitCount,
               this`backwardTimeout, this`packets
      ensures Valid() && packets == old(packets) + 1 && HasFile() && Continues() == old(Continues())
      ensures state.Seeking? <==>
                pos < seekPos ||
                (old(seekBackwardWait) && !(old(waitCount) == 0 && (pos == 0 || pos < seekStartPos || !media.normal)))
      ensures !state.Seeking? ==> !seekBackwardWait && state == if media.normal then Buffering else if intent then Playing else Pause
      ensures packets > SEEK_IGNORE_PACKETS + media.threads + SEEK_BACKWARD_TIMEOUT ==> !seekBackwardWait
      ensures Controls() == if state.Seeking? then old(Controls()) else Arrive(old(Controls()), media)
      ensures Waits() == Tick(Jump(old(Waits()), pos == 0 || pos < seekStartPos || !media.normal))
    {
      var isBehind := pos == 0 || pos < seekStartPos;
      MadeSure(isBehind || !media.normal);
      if !seekBackwardWait && pos >= seekPos {
        if media.normal {
          state := Buffering;
        } else {
          RestartPlayback();
        }
      }
      CountPacket();
    }

    /** A packet: a seek looks at those of videos, or at all if there are no normal ones. */
    method PacketArrives(video: bool, pos: int)
      requires Valid()
      modifies this`state, this`resumeLater, this`speakerPaused, this`seekBackwardWait, this`waitCount,
               this`backwardTimeout, this`packets
      ensures Valid() && (state != old(state) ==> old(state).Seeking?)
      ensures packets == old(packets) + if old(state).Seeking? && (video || !media.normal) then 1 else 0
      ensures packets == old(packets) ==> Holds() == old(Holds())
      ensures forall passed :: Handles(old(Holds()), video, pos, passed, Holds())
    {
      ghost var was := Holds();
      if state.Seeking? && (video || !media.normal) {
        SeekOver(pos);
      }
      forall passed ensures Handles(was, video, pos, passed, Holds()) {
        PacketHandled(was, video, pos, passed, Holds());
      }
    }
  }
}
