/** What holds after every run of the player, whatever the order of the threads' steps. */
module PlayerRuns {
  import opened PlayerConvert
  import opened PlayerInvariants
  import opened PlayerMessages
  import opened PlayerModel
  import opened PlayerVideo

  lemma RunAppend(actions: seq<Action>, a: Action)
    ensures Run(actions + [a]) == Step(Run(actions), a)
  {
    assert (actions + [a])[..|actions|] == actions;
  }

  ghost predicate Reached(s: Sys) {
    exists actions :: Run(actions) == s
  }

  lemma ReachedBy(s: Sys, a: Action)
    requires Reached(s)
    ensures Reached(Step(s, a))
  {
    var actions :| Run(actions) == s;
    RunAppend(actions, a);
  }

  lemma Obeyed(s: Sys, cmd: Cmd) returns (r: Sys)
    requires Reached(s) && s.d.mode.Running?
    ensures Reached(r) && r == Obey(s, cmd)
  {
    r := Step(s, Command(cmd));
    ReachedBy(s, Command(cmd));
  }

  // ---- Playback follows what the user asked for -------------------------------------------------------

  /** The step handles a play request without a file, or a pause or resume request with one. */
  predicate Asks(s: Sys, a: Action) {
    a.Command? && s.d.mode.Running? &&
    (if Session(s.d) then a.cmd.PauseRequest? || a.cmd.ResumeRequest? else a.cmd.PlayRequest? && ValidMedia(a.cmd.media))
  }

  /** Whether the last such request asked for playback. */
  function LastAsked(actions: seq<Action>): bool
    decreases |actions|
  {
    if actions == [] then false
    else
      var init, a := actions[..|actions| - 1], actions[|actions| - 1];
      if Asks(Run(init), a) then !a.cmd.PauseRequest? else LastAsked(init)
  }

  lemma AskSets(s: Sys, a: Action)
    requires Playback(s.d)
    ensures Step(s, a).d.c.intent == if Asks(s, a) then !a.cmd.PauseRequest? else s.d.c.intent
  {
    if Asks(s, a) {
      PauseKeeps(s.d.c, s.d.media.speaker);
      ResumeKeeps(s.d.c, s.d.media.speaker);
    } else if s.d.c.intent != Step(s, a).d.c.intent {
      IntentIsTheUsers(s, a);
    }
  }

  lemma {:induction false} IntentIsLastAsked(actions: seq<Action>)
    ensures Run(actions).d.c.intent == LastAsked(actions)
    decreases |actions|
  {
    if actions != [] {
      var init := actions[..|actions| - 1];
      IntentIsLastAsked(init);
      PlaybackAlways(init);
      AskSets(Run(init), actions[|actions| - 1]);
    }
  }

  /** Whatever seeks, shortages of pictures, notices and changes of track or file come between, with a file open
      the player plays, or will resume, exactly if playback was last asked for; it keeps in mind to resume only
      while buffering or seeking; and while it plays the speaker is not paused. */
  lemma PlaybackFollowsTheUser(actions: seq<Action>)
    ensures var d := Run(actions).d;
            Session(d) ==>
              (d.c.state.Playing? || d.c.resumeLater <==> LastAsked(actions)) &&
              (d.c.resumeLater ==> d.c.state.Buffering? || d.c.state.PrepareSeeking? || d.c.state.Seeking?) &&
              (d.media.speaker && d.c.state.Playing? ==> !d.c.paused)
  {
    PlaybackAlways(actions);
    IntentIsLastAsked(actions);
  }

  // ---- The speaker ------------------------------------------------------------------------------------

  /** A file is opened or closed, or the player begins or stops to play: what pauses or resumes the speaker. */
  predicate Turns(d: Decode, d': Decode) {
    Session(d') != Session(d) || d'.c.state.Playing? != d.c.state.Playing?
  }

  predicate SetsSpeaker(s: Sys, a: Action) {
    Turns(s.d, Step(s, a).d)
  }

  /** The step handles a change of the audio track that sets the open speaker up anew. */
  predicate ChangesTrack(s: Sys, a: Action) {
    a.Command? && a.cmd.TrackRequest? && a.cmd.changed && s.d.mode.Running? && Session(s.d) && s.d.media.speaker
  }

  /** Whether the audio track has been changed since the speaker was last opened, paused or resumed. */
  function TrackChanged(actions: seq<Action>): bool
    decreases |actions|
  {
    if actions == [] then false
    else
      var init, a := actions[..|actions| - 1], actions[|actions| - 1];
      !SetsSpeaker(Run(init), a) && (ChangesTrack(Run(init), a) || TrackChanged(init))
  }

  /** What a step does to the pause of an open speaker. */
  predicate SpeakerMoves(d: Decode, d': Decode, changes: bool) {
    Session(d') && d'.media.speaker ==>
      if Turns(d, d') then d'.c.paused == !d'.c.state.Playing?
      else d'.media.speaker == d.media.speaker && d'.c.paused == (d.c.paused && !changes)
  }

  lemma ObeySpeaker(s: Sys, cmd: Cmd)
    requires Playback(s.d)
    ensures SpeakerMoves(s.d, Obey(s, cmd).d, cmd.TrackRequest? && cmd.changed)
  {
  }

  lemma NoticeSpeaker(s: Sys, n: Note, drained: bool)
    requires Playback(s.d)
    ensures SpeakerMoves(s.d, Notice(s, n, drained).d, false)
  {
  }

  lemma AwaitSpeaker(s: Sys, n: Note)
    ensures SpeakerMoves(s.d, Await(s, n).d, false)
  {
  }

  lemma PacketSpeaker(s: Sys, video: bool, pos: int, passed: bool)
    requires Playback(s.d)
    ensures SpeakerMoves(s.d, Packet(s, video, pos, passed).d, false)
  {
  }

  lemma DecodeSpeaker(s: Sys, a: Action)
    requires Playback(s.d) && OfDecode(a)
    ensures SpeakerMoves(s.d, DecodeStep(s, a).d, ChangesTrack(s, a))
  {
    match a {
      case Command(cmd) => ObeySpeaker(s, cmd);
      case TakeNote(drained) =>
        if s.notes != [] {
          var rest := s.(notes := s.notes[1..]);
          if s.d.mode.Running? { NoticeSpeaker(rest, s.notes[0], drained); } else { AwaitSpeaker(rest, s.notes[0]); }
        }
      case HandlePacket(video, pos, passed) => PacketSpeaker(s, video, pos, passed);
      case _ =>
    }
  }

  lemma SpeakerMoved(s: Sys, a: Action)
    requires Playback(s.d)
    ensures SpeakerMoves(s.d, Step(s, a).d, ChangesTrack(s, a))
  {
    if OfDecode(a) {
      DecodeSpeaker(s, a);
    } else {
      OnlyDecodeWrites(s, a);
    }
  }

  /** With a file and the speaker open, the speaker is paused exactly if the player does not play and the audio
      track has not been changed since the speaker was last opened, paused or resumed. */
  lemma {:induction false} SpeakerPausedWhen(actions: seq<Action>)
    ensures var d := Run(actions).d;
            Session(d) && d.media.speaker ==> (d.c.paused <==> !d.c.state.Playing? && !TrackChanged(actions))
    decreases |actions|
  {
    if actions != [] {
      var init, a := actions[..|actions| - 1], actions[|actions| - 1];
      SpeakerPausedWhen(init);
      PlaybackAlways(init);
      SpeakerMoved(Run(init), a);
    }
  }

  /** So the speaker is paused exactly while the player does not play if and only if the player plays or the
      track has not been changed since. */
  lemma SpeakerFollowsPlayback(actions: seq<Action>)
    ensures var d := Run(actions).d;
            Session(d) && d.media.speaker ==>
              ((d.c.paused <==> !d.c.state.Playing?) <==> d.c.state.Playing? || !TrackChanged(actions))
  {
    SpeakerPausedWhen(actions);
  }

  /** A paused player whose audio track is changed has its speaker running. */
  lemma TrackChangeUnpauses() returns (s: Sys)
    ensures Reached(s) && s.d.c.state.Pause? && s.d.media.speaker && !s.d.c.paused
  {
    assert Run([]) == START;
    s := Obeyed(START, PlayRequest(true, Media(0, false, true, 0), false));
    s := Obeyed(s, PauseRequest);
    s := Obeyed(s, TrackRequest(true));
  }

  // ---- Messages ----------------------------------------------------------------------------------------

  lemma {:induction false} MessagesAlways(actions: seq<Action>)
    ensures ReadOk(Run(actions)) && VideoOk(Run(actions)) && ConvertOk(Run(actions))
    decreases |actions|
  {
    if actions != [] {
      var s, a := Run(actions[..|actions| - 1]), actions[|actions| - 1];
      MessagesAlways(actions[..|actions| - 1]);
      ReadKept(s, a);
      VideoKept(s, a);
      ConvertKept(s, a);
    }
  }

  /** With a file open and no abort under way, each request to read packets is on its way, being answered, or
      answered by one unread notice exactly while the decode thread believes the read-packet thread active; and
      so for the packets that the decode-video thread copies. */
  lemma RequestsConserved(actions: seq<Action>)
    ensures var s := Run(actions);
            s.d.mode.Running? && Session(s.d) ==>
              Reads(s.readQ, s.reader, s.notes) == (if s.d.readActive then 1 else 0) &&
              Copies(s.videoQ, s.video, s.notes) == (if s.d.waitingVideo then 1 else 0)
  {
    MessagesAlways(actions);
  }

  /** A request is taken only while a file is open, so that none of those to read, seek, decode or clear is
      dropped without its answer. */
  lemma RequestsFindAFile(actions: seq<Action>)
    ensures var s := Run(actions); (s.readQ != [] || s.videoQ != []) ==> Session(s.d)
  {
    MessagesAlways(actions);
  }

  /** Without a file, and so when the decode thread has collected its three notices of an abort: nothing is asked
      of the read-packet and decode-video threads, they do nothing, and the convert thread converts nothing. */
  lemma AbortQuiesces(actions: seq<Action>)
    ensures var s := Run(actions);
            !Session(s.d) ==>
              ReaderQuiet(s.readQ, s.reader, s.notes) && VideoQuiet(s.videoQ, s.video, s.notes) &&
              Still(s.convertQ, s.converter, s.shouldConvert)
  {
    MessagesAlways(actions);
  }

  predicate Plays(a: Action) {
    a.Command? && a.cmd.PlayRequest?
  }

  predicate NoPlays(more: seq<Action>) {
    forall i | 0 <= i < |more| :: !Plays(more[i])
  }

  /** From there on, until a play request, the convert thread converts no picture, whatever the threads do. */
  lemma NothingConverted(actions: seq<Action>, more: seq<Action>)
    requires !Session(Run(actions).d) && NoPlays(more)
    ensures var s := Run(actions + more); Still(s.convertQ, s.converter, s.shouldConvert)
  {
    ClosedUntilPlay(actions, more);
    AbortQuiesces(actions + more);
  }

  lemma {:induction false} ClosedUntilPlay(actions: seq<Action>, more: seq<Action>)
    requires !Session(Run(actions).d) && NoPlays(more)
    ensures !Session(Run(actions + more).d)
    decreases |more|
  {
    if more == [] {
      assert actions + more == actions;
    } else {
      var init, a := more[..|more| - 1], more[|more| - 1];
      ClosedUntilPlay(actions, init);
      ClosedStays(actions + init, a);
      assert actions + more == actions + init + [a];
    }
  }

  lemma ClosedStays(actions: seq<Action>, a: Action)
    requires !Session(Run(actions).d) && !Plays(a)
    ensures !Session(Run(actions + [a]).d)
  {
    PlaybackAlways(actions);
    StaysClosed(Run(actions), a);
    RunAppend(actions, a);
  }

  lemma StaysClosed(s: Sys, a: Action)
    requires Playback(s.d) && !Session(s.d) && !Plays(a)
    ensures !Session(Step(s, a).d)
  {
    if OfDecode(a) {
      DecodeStaysClosed(s, a);
    } else {
      OnlyDecodeWrites(s, a);
    }
  }

  lemma DecodeStaysClosed(s: Sys, a: Action)
    requires Playback(s.d) && !Session(s.d) && !Plays(a) && OfDecode(a)
    ensures !Session(DecodeStep(s, a).d)
  {
    match a {
      case Command(cmd) => assert !Session(Obey(s, cmd).d);
      case TakeNote(drained) => if s.notes != [] { NoticeShape(s.(notes := s.notes[1..]), s.notes[0], drained); }
      case _ =>
    }
  }
}
