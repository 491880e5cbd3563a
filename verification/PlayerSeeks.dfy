/** When a seek starts: only when the file has been sought, unless an earlier session has left a request to clear. */
module PlayerSeeks {
  import opened PlayerAborts
  import opened PlayerConvert
  import opened PlayerInvariants
  import opened PlayerMessages
  import opened PlayerModel
  import opened PlayerRuns
  import opened PlayerVideo

  predicate IsSeek(c: ReadCmd) { c.Seek? }
  predicate IsSeekDone(n: Note) { n.SeekDone? }
  predicate IsClearConvert(c: ConvertCmd) { c.ClearConvert? }
  predicate IsCleared(n: Note) { n.Cleared? }

  /** Requests to seek that have not been taken, the one being carried out, and notices of that not yet seen. */
  function Seeks(s: Sys): nat {
    Count(s.readQ, IsSeek) + (if s.reader.SeekingFile? then 1 else 0) + Count(s.notes, IsSeekDone)
  }

  /** Requests to clear on their way to the convert thread. */
  function Queued(s: Sys): nat {
    Count(s.videoQ, IsClear) + (if s.video.ClearingVideo? then 1 else 0) + Count(s.convertQ, IsClearConvert)
  }

  /** Requests to clear that can still lead to a notice, in a session of a file with so many video tracks: those
      on their way, which the convert thread drops for a file without video; the one being carried out; and notices
      not yet seen. */
  function Clears(s: Sys, tracks: nat): nat {
    (if tracks > 0 then Queued(s) else 0) + (if s.converter.ClearingConvert? then 1 else 0) + Count(s.notes, IsCleared)
  }

  // ---- What the steps do to them --------------------------------------------------------------------------

  lemma NoteAdded(notes: seq<Note>, n: Note)
    ensures Count(notes + [n], IsSeekDone) == Count(notes, IsSeekDone) + if n.SeekDone? then 1 else 0
    ensures Count(notes + [n], IsCleared) == Count(notes, IsCleared) + if n.Cleared? then 1 else 0
  {
    CountAppend(notes, n, IsSeekDone);
    CountAppend(notes, n, IsCleared);
  }

  lemma ReaderMoves(s: Sys, a: Action)
    ensures var r := ReaderStep(s, a);
            r.d == s.d && Seeks(r) <= Seeks(s) && Clears(r, s.d.media.tracks) == Clears(s, s.d.media.tracks)
  {
    NoteAdded(s.notes, ReadDone(true));
    NoteAdded(s.notes, ReadDone(false));
    NoteAdded(s.notes, SeekDone);
    NoteAdded(s.notes, ReadAborted);
  }

  lemma VideoMoves(s: Sys, a: Action)
    ensures var r := VideoStep(s, a);
            r.d == s.d && Seeks(r) == Seeks(s) && Clears(r, s.d.media.tracks) <= Clears(s, s.d.media.tracks)
  {
    NoteAdded(s.notes, Copied);
    NoteAdded(s.notes, VideoAborted);
    CountAppend(s.convertQ, ClearConvert, IsClearConvert);
  }

  lemma ConverterTook(s: Sys)
    ensures var r := ConvertStep(s, ConverterTakes);
            r.d == s.d && Seeks(r) == Seeks(s) && Clears(r, s.d.media.tracks) <= Clears(s, s.d.media.tracks)
  {
  }

  lemma ConverterMoves(s: Sys, a: Action)
    ensures var r := ConvertStep(s, a);
            r.d == s.d && Seeks(r) == Seeks(s) && Clears(r, s.d.media.tracks) <= Clears(s, s.d.media.tracks)
  {
    ConverterTook(s);
    NoteAdded(s.notes, Cleared);
    NoteAdded(s.notes, ConvertAborted);
    NoteAdded(s.notes, Underrun);
    NoteAdded(s.notes, Buffered);
  }

  /** The other threads carry requests on or drop them. */
  lemma OthersMove(s: Sys, a: Action)
    requires !OfDecode(a)
    ensures var r := Step(s, a);
            r.d == s.d && Seeks(r) <= Seeks(s) && Clears(r, s.d.media.tracks) <= Clears(s, s.d.media.tracks)
  {
    ReaderMoves(s, a);
    VideoMoves(s, a);
    ConverterMoves(s, a);
  }

  // ---- The history of a run -------------------------------------------------------------------------------

  /** The step handles a seek request. */
  predicate AsksSeek(s: Sys, a: Action) {
    a.Command? && a.cmd.SeekRequest? && s.d.mode.Running? && Session(s.d) && !s.d.c.state.PrepareSeeking?
  }

  /** The step handles the notice that the file has been sought. */
  predicate Answers(s: Sys, a: Action) {
    a.TakeNote? && s.d.mode.Running? && s.notes != [] && s.notes[0].SeekDone? && s.d.c.state.PrepareSeeking?
  }

  /** Whether the file has been sought since the last seek request handled. */
  function Answered(actions: seq<Action>): bool
    decreases |actions|
  {
    if actions == [] then false
    else
      var init, a := actions[..|actions| - 1], actions[|actions| - 1];
      !AsksSeek(Run(init), a) && (Answers(Run(init), a) || Answered(init))
  }

  /** The step opens a file. */
  predicate Opens(s: Sys, a: Action) {
    Plays(a) && ValidMedia(a.cmd.media) && s.d.mode.Running? && !Session(s.d)
  }

  /** Whether no request to clear was left when the last file was opened. */
  function Clean(actions: seq<Action>): bool
    decreases |actions|
  {
    if actions == [] then true
    else
      var init, a := actions[..|actions| - 1], actions[|actions| - 1];
      if Opens(Run(init), a) then Clears(Run(init), a.cmd.media.tracks) == 0 else Clean(init)
  }

  /** The last step of the run starts a seek, and the file has not been sought for it. */
  predicate StartsEarly(actions: seq<Action>) {
    actions != [] && Run(actions[..|actions| - 1]).d.c.state.PrepareSeeking? && Run(actions).d.c.state.Seeking? && !Answered(actions)
  }

  // ---- Without a request left over, no seek starts early ----------------------------------------------------

  /** What is on its way in a session that was opened clean: for a seek being prepared, first its own request, and
      then the request to clear for it; otherwise nothing. */
  predicate OneAtATime(s: Sys, answered: bool) {
    s.d.mode.Running? && Session(s.d) ==>
      if !s.d.c.state.PrepareSeeking? then Seeks(s) == 0 && Clears(s, s.d.media.tracks) == 0
      else if answered then Seeks(s) == 0 && Clears(s, s.d.media.tracks) <= 1
      else Seeks(s) <= 1 && Clears(s, s.d.media.tracks) == 0
  }

  lemma OpensClean(s: Sys, cmd: Cmd)
    requires ReadOk(s) && Opens(s, Command(cmd)) && Clears(s, cmd.media.tracks) == 0
    ensures OneAtATime(Obey(s, cmd), false) && !Obey(s, cmd).d.c.state.PrepareSeeking?
  {
    CountNone(s.notes, OfReader);
    CountNone(s.notes, IsSeekDone);
    CountAppend(s.readQ, Read, IsSeek);
    CountAppend(s.convertQ, Convert, IsClearConvert);
  }

  lemma ObeysOne(s: Sys, cmd: Cmd, answered: bool)
    requires Playback(s.d) && s.d.mode.Running? && OneAtATime(s, answered) && !cmd.PlayRequest?
    ensures OneAtATime(Obey(s, cmd), !AsksSeek(s, Command(cmd)) && answered)
  {
    match cmd {
      case SeekRequest(pos) => SeekOne(s, pos, answered);
      case AbortRequest(end) =>
      case _ => ControlOne(s, cmd, answered);
    }
  }

  lemma SeekOne(s: Sys, pos: int, answered: bool)
    requires s.d.mode.Running? && OneAtATime(s, answered)
    ensures OneAtATime(SeekCmd(s, pos), !AsksSeek(s, Command(SeekRequest(pos))) && answered)
  {
    CountAppend(s.readQ, Seek, IsSeek);
  }

  lemma ControlOne(s: Sys, cmd: Cmd, answered: bool)
    requires Playback(s.d) && OneAtATime(s, answered) && (cmd.PauseRequest? || cmd.ResumeRequest? || cmd.TrackRequest?)
    ensures OneAtATime(Obey(s, cmd), answered)
  {
    ControlOnly(s, cmd);
    assert Obey(s, cmd).d.c.state.PrepareSeeking? == s.d.c.state.PrepareSeeking?;
  }

  /** The counts when the first notice is taken. */
  lemma NoteTaken(s: Sys, rest: Sys)
    requires s.notes != [] && rest == s.(notes := s.notes[1..])
    ensures Seeks(s) == Seeks(rest) + if s.notes[0].SeekDone? then 1 else 0
    ensures Clears(s, s.d.media.tracks) == Clears(rest, s.d.media.tracks) + if s.notes[0].Cleared? then 1 else 0
  {
  }

  lemma OtherNotice(s: Sys, n: Note, drained: bool)
    requires Playback(s.d) && !n.SeekDone? && !n.Cleared?
    ensures var r := Notice(s, n, drained);
            r == s.(d := r.d) && r.d.mode == s.d.mode && Session(r.d) == Session(s.d) && r.d.media == s.d.media &&
            r.d.c.state.PrepareSeeking? == s.d.c.state.PrepareSeeking?
  {
  }

  lemma SeesOne(s: Sys, n: Note, drained: bool, answered: bool)
    requires Playback(s.d) && s.d.mode.Running? && s.notes != [] && n == s.notes[0] && OneAtATime(s, answered)
    ensures var r := Notice(s.(notes := s.notes[1..]), n, drained);
            OneAtATime(r, Answers(s, TakeNote(drained)) || answered) &&
            (s.d.c.state.PrepareSeeking? && r.d.c.state.Seeking? ==> Answers(s, TakeNote(drained)) || answered)
  {
    var rest := s.(notes := s.notes[1..]);
    NoteTaken(s, rest);
    if n.SeekDone? {
      CountAppend(s.videoQ, ClearVideo, IsClear);
    } else if !n.Cleared? {
      OtherNotice(rest, n, drained);
    }
  }

  lemma PacketsOne(s: Sys, video: bool, pos: int, passed: bool, answered: bool)
    requires Playback(s.d) && s.d.mode.Running? && Active(s.d.c) && OneAtATime(s, answered)
    ensures OneAtATime(Packet(s, video, pos, passed), answered)
  {
    PacketShape(s, video, pos, passed);
    CountAppend(s.videoQ, DecodeFrame, IsClear);
  }

  /** What a step that opens no file keeps; and that it starts a seek only if the file has been sought. */
  predicate KeepsOne(s: Sys, a: Action, r: Sys, answered: bool) {
    var after := !AsksSeek(s, a) && (Answers(s, a) || answered);
    OneAtATime(r, after) && (s.d.mode.Running? && s.d.c.state.PrepareSeeking? && r.d.c.state.Seeking? ==> after)
  }

  lemma CommandOne(s: Sys, cmd: Cmd, answered: bool)
    requires Playback(s.d) && s.d.mode.Running? && !Opens(s, Command(cmd)) && OneAtATime(s, answered)
    ensures KeepsOne(s, Command(cmd), Obey(s, cmd), answered)
  {
    if cmd.PlayRequest? {
      assert Obey(s, cmd) == s;
    } else {
      ObeysOne(s, cmd, answered);
    }
  }

  lemma NoteOne(s: Sys, drained: bool, answered: bool)
    requires Playback(s.d) && s.notes != [] && !s.d.mode.Exited? && OneAtATime(s, answered)
    ensures KeepsOne(s, TakeNote(drained), DecodeStep(s, TakeNote(drained)), answered)
  {
    if s.d.mode.Running? {
      SeesOne(s, s.notes[0], drained, answered);
    } else {
      AwaitEnds(s.(notes := s.notes[1..]), s.notes[0]);
    }
  }

  lemma AwaitEnds(s: Sys, n: Note)
    requires !s.d.mode.Running?
    ensures !Await(s, n).d.mode.Running? || !Session(Await(s, n).d)
  {
  }

  lemma OtherOne(s: Sys, a: Action, answered: bool)
    requires Playback(s.d) && OneAtATime(s, answered) && (a.ReadMore? || a.NoMoreToBuffer? || a.SetSeekPos?)
    ensures KeepsOne(s, a, DecodeStep(s, a), answered)
  {
    CountAppend(s.readQ, Read, IsSeek);
    NoteAdded(s.notes, Buffered);
  }

  /** A step of the decode thread that opens no file. */
  lemma DecodeOne(s: Sys, a: Action, answered: bool)
    requires Playback(s.d) && OfDecode(a) && !Opens(s, a) && OneAtATime(s, answered)
    ensures KeepsOne(s, a, DecodeStep(s, a), answered)
  {
    match a {
      case Command(cmd) => if s.d.mode.Running? { CommandOne(s, cmd, answered); }
      case TakeNote(drained) => if s.notes != [] && !s.d.mode.Exited? { NoteOne(s, drained, answered); }
      case HandlePacket(video, pos, passed) =>
        if s.d.mode.Running? && Active(s.d.c) { PacketsOne(s, video, pos, passed, answered); }
      case _ => OtherOne(s, a, answered);
    }
  }

  lemma StepOne(s: Sys, a: Action, answered: bool)
    requires Playback(s.d) && !Opens(s, a) && OneAtATime(s, answered)
    ensures KeepsOne(s, a, Step(s, a), answered)
  {
    if OfDecode(a) {
      DecodeOne(s, a, answered);
    } else {
      OthersMove(s, a);
    }
  }

  lemma {:induction false} OneAtATimeAlways(actions: seq<Action>)
    ensures Clean(actions) ==> OneAtATime(Run(actions), Answered(actions))
    decreases |actions|
  {
    if actions != [] {
      var init, a := actions[..|actions| - 1], actions[|actions| - 1];
      OneAtATimeAlways(init);
      PlaybackAlways(init);
      MessagesAlways(init);
      if Opens(Run(init), a) {
        if Clears(Run(init), a.cmd.media.tracks) == 0 { OpensClean(Run(init), a.cmd); }
      } else if Clean(init) {
        StepOne(Run(init), a, Answered(init));
      }
    }
  }

  /** A seek is started only by the decode thread while it is running. */
  lemma StartsRunning(s: Sys, a: Action)
    requires s.d.c.state.PrepareSeeking? && Step(s, a).d.c.state.Seeking?
    ensures s.d.mode.Running? && !Opens(s, a)
  {
    if !OfDecode(a) {
      OnlyDecodeWrites(s, a);
    }
  }

  /** In a session that was opened with no request to clear left over, a seek starts only when the file has been
      sought for it. */
  lemma StartsWhenSought(actions: seq<Action>)
    ensures Clean(actions) ==> !StartsEarly(actions)
  {
    if Clean(actions) && StartsEarly(actions) {
      var init, a := actions[..|actions| - 1], actions[|actions| - 1];
      StartsRunning(Run(init), a);
      OneAtATimeAlways(init);
      PlaybackAlways(init);
      StepOne(Run(init), a, Answered(init));
    }
  }

  // ---- The session after a file is opened -------------------------------------------------------------------

  predicate Aborts(a: Action) {
    a.Command? && a.cmd.AbortRequest?
  }

  predicate NoAborts(more: seq<Action>) {
    forall i | 0 <= i < |more| :: !Aborts(more[i])
  }

  predicate InSession(s: Sys) {
    Session(s.d) && s.d.mode.Running?
  }

  lemma CommandGoesOn(s: Sys, cmd: Cmd)
    requires Playback(s.d) && InSession(s) && !cmd.AbortRequest?
    ensures InSession(Obey(s, cmd))
  {
    if cmd.PauseRequest? || cmd.ResumeRequest? || cmd.TrackRequest? {
      ControlOnly(s, cmd);
    }
  }

  lemma SessionGoesOn(s: Sys, a: Action)
    requires Playback(s.d) && InSession(s) && !Aborts(a)
    ensures InSession(Step(s, a))
  {
    if OfDecode(a) {
      DecodeGoesOn(s, a);
    } else {
      OnlyDecodeWrites(s, a);
    }
  }

  lemma DecodeGoesOn(s: Sys, a: Action)
    requires Playback(s.d) && InSession(s) && !Aborts(a) && OfDecode(a)
    ensures InSession(DecodeStep(s, a))
  {
    match a {
      case Command(cmd) => CommandGoesOn(s, cmd);
      case TakeNote(drained) => if s.notes != [] { NoticeShape(s.(notes := s.notes[1..]), s.notes[0], drained); }
      case HandlePacket(video, pos, passed) => if Active(s.d.c) { PacketShape(s, video, pos, passed); }
      case _ =>
    }
  }

  /** Without an abort the session goes on, and no other file is opened. */
  lemma {:induction false} SameSession(base: seq<Action>, more: seq<Action>)
    requires InSession(Run(base)) && NoAborts(more)
    ensures InSession(Run(base + more)) && Clean(base + more) == Clean(base)
    decreases |more|
  {
    if more == [] {
      assert base + more == base;
    } else {
      var init, a := more[..|more| - 1], more[|more| - 1];
      SameSession(base, init);
      PlaybackAlways(base + init);
      SessionGoesOn(Run(base + init), a);
      RunAppend(base + init, a);
      assert base + more == base + init + [a];
      assert (base + init + [a])[..|base + init|] == base + init;
    }
  }

  lemma OpensSession(actions: seq<Action>, p: Action)
    requires Opens(Run(actions), p)
    ensures Run(actions + [p]) == Obey(Run(actions), p.cmd) && InSession(Run(actions + [p]))
    ensures Clean(actions + [p]) <==> Clears(Run(actions), p.cmd.media.tracks) == 0
  {
    RunAppend(actions, p);
    assert (actions + [p])[..|actions|] == actions;
  }

  lemma NeverEarly(actions: seq<Action>, p: Action, more: seq<Action>)
    requires Opens(Run(actions), p) && Clears(Run(actions), p.cmd.media.tracks) == 0 && NoAborts(more)
    ensures !StartsEarly(actions + [p] + more)
  {
    OpensSession(actions, p);
    SameSession(actions + [p], more);
    StartsWhenSought(actions + [p] + more);
  }

  // ---- With a request left over, a seek can start early -----------------------------------------------------

  /** One run is another with more steps, none of which aborts. */
  ghost predicate Extends(base: seq<Action>, now: seq<Action>) {
    exists more :: NoAborts(more) && base + more == now
  }

  /** A run in which a seek is prepared, the file has not been sought, and a clear request can end up as a notice. */
  ghost predicate Threatened(base: seq<Action>, now: seq<Action>) {
    Extends(base, now) && InSession(Run(now)) && Run(now).d.c.state.PrepareSeeking? && !Answered(now) &&
    Count(Run(now).notes, IsSeekDone) == 0
  }

  lemma ExtendsOn(base: seq<Action>, now: seq<Action>, a: Action)
    requires Extends(base, now) && !Aborts(a)
    ensures Extends(base, now + [a]) && Run(now + [a]) == Step(Run(now), a)
    ensures Answered(now + [a]) == (!AsksSeek(Run(now), a) && (Answers(Run(now), a) || Answered(now)))
  {
    var more :| NoAborts(more) && base + more == now;
    assert base + (more + [a]) == now + [a] && NoAborts(more + [a]);
    RunAppend(now, a);
    assert (now + [a])[..|now|] == now;
  }

  /** While a seek is prepared, a notice starts it, or changes nothing of that. */
  lemma NoticePrepared(s: Sys, n: Note)
    requires InSession(s) && s.d.c.state.PrepareSeeking? && !n.SeekDone?
    ensures var r := Notice(s, n, false);
            r.notes == s.notes && r.d.mode == s.d.mode && if n.Cleared? then r.d.c.state.Seeking? else r.d.c == s.d.c
  {
  }

  lemma NextNotice(s: Sys)
    requires InSession(s) && s.d.c.state.PrepareSeeking? && s.notes != [] && !s.notes[0].SeekDone?
    ensures var r := Step(s, TakeNote(false));
            r.notes == s.notes[1..] && InSession(r) && if s.notes[0].Cleared? then r.d.c.state.Seeking? else r.d.c == s.d.c
  {
    var rest := s.(notes := s.notes[1..]);
    NoticePrepared(rest, s.notes[0]);
    assert DecodeStep(s, TakeNote(false)) == Notice(rest, s.notes[0], false);
  }

  lemma NoSeekDone(notes: seq<Note>)
    requires Count(notes, IsSeekDone) == 0 && notes != []
    ensures !notes[0].SeekDone? && Count(notes[1..], IsSeekDone) == 0
  {
  }

  /** The decode thread gets to the notice, and the seek starts. */
  lemma {:induction false} NoticeStarts(base: seq<Action>, now: seq<Action>) returns (r: seq<Action>)
    requires Threatened(base, now) && Count(Run(now).notes, IsCleared) > 0
    ensures Extends(base, r) && StartsEarly(r)
    decreases |Run(now).notes|
  {
    var s, a := Run(now), TakeNote(false);
    NoSeekDone(s.notes);
    NextNotice(s);
    ExtendsOn(base, now, a);
    r := now + [a];
    assert !Answered(r);
    if s.notes[0].Cleared? {
      assert r[..|r| - 1] == now;
    } else {
      r := NoticeStarts(base, r);
    }
  }

  lemma ConverterNotifies(base: seq<Action>, now: seq<Action>) returns (r: seq<Action>)
    requires Threatened(base, now) && Run(now).converter.ClearingConvert?
    ensures Threatened(base, r) && Count(Run(r).notes, IsCleared) > 0
  {
    r := now + [ConverterClears];
    ExtendsOn(base, now, ConverterClears);
    NoteAdded(Run(now).notes, Cleared);
  }

  lemma ConverterBegins(base: seq<Action>, now: seq<Action>) returns (r: seq<Action>)
    requires Threatened(base, now) && Run(now).converter.ConverterIdle? && Run(now).d.media.tracks > 0
    requires Run(now).convertQ != [] && Run(now).convertQ[0].ClearConvert?
    ensures Threatened(base, r) && Run(r).converter.ClearingConvert?
  {
    r := now + [ConverterTakes];
    ExtendsOn(base, now, ConverterTakes);
  }

  lemma JustOpened(s: Sys, cmd: Cmd)
    requires Opens(s, Command(cmd))
    ensures var r := Obey(s, cmd);
            InSession(r) && !r.d.c.state.PrepareSeeking? && r.d.media == cmd.media && r.notes == s.notes &&
            r.converter == s.converter && s.convertQ <= r.convertQ
  {
  }

  /** Behind a request to open a file and one to seek, everything is as it was left. */
  lemma SeekIsPrepared(actions: seq<Action>, p: Action) returns (r: seq<Action>)
    requires Opens(Run(actions), p)
    ensures Threatened(actions + [p], r) && Run(r).notes == Run(actions).notes && Run(r).converter == Run(actions).converter
    ensures Run(actions).convertQ <= Run(r).convertQ && Run(r).d.media == p.cmd.media
  {
    var base, seek := actions + [p], Command(SeekRequest(0));
    OpensSession(actions, p);
    JustOpened(Run(actions), p.cmd);
    assert base + [] == base;
    r := base + [seek];
    ExtendsOn(base, base, seek);
    assert Run(r) == Obey(Run(base), SeekRequest(0));
    MessagesAlways(actions);
    CountNone(Run(actions).notes, OfReader);
    CountNone(Run(actions).notes, IsSeekDone);
  }

  /** What a closed player can have left to clear. */
  lemma LeftToClear(actions: seq<Action>, tracks: nat)
    requires !Session(Run(actions).d) && Clears(Run(actions), tracks) > 0
    ensures var s := Run(actions);
            Count(s.notes, IsCleared) > 0 || s.converter.ClearingConvert? ||
            (s.converter.ConverterIdle? && tracks > 0 && s.convertQ != [] && s.convertQ[0].ClearConvert?)
  {
    MessagesAlways(actions);
    OnlyClearsLeft(actions);
  }

  lemma CanStartEarly(actions: seq<Action>, p: Action) returns (r: seq<Action>)
    requires Opens(Run(actions), p) && Clears(Run(actions), p.cmd.media.tracks) > 0
    ensures Extends(actions + [p], r) && StartsEarly(r)
  {
    LeftToClear(actions, p.cmd.media.tracks);
    r := SeekIsPrepared(actions, p);
    if Count(Run(r).notes, IsCleared) == 0 {
      if !Run(r).converter.ClearingConvert? {
        r := ConverterBegins(actions + [p], r);
      }
      r := ConverterNotifies(actions + [p], r);
    }
    r := NoticeStarts(actions + [p], r);
  }

  /** When a file is opened: some way of going on without an abort starts a seek before the file has been sought
      for it if and only if a request to clear is left from before, or its notice, that counts for this file. */
  lemma EarlyExactlyWhen(actions: seq<Action>, p: Action)
    requires Opens(Run(actions), p)
    ensures Clears(Run(actions), p.cmd.media.tracks) > 0 <==>
              exists more :: NoAborts(more) && StartsEarly(actions + [p] + more)
  {
    if Clears(Run(actions), p.cmd.media.tracks) > 0 {
      var r := CanStartEarly(actions, p);
      assert exists more :: NoAborts(more) && actions + [p] + more == r;
    } else {
      forall more | NoAborts(more) ensures !StartsEarly(actions + [p] + more) {
        NeverEarly(actions, p, more);
      }
    }
  }

  // ---- Such a run ----------------------------------------------------------------------------------------

  lemma {:induction false} ReachedAfter(s: Sys, more: seq<Action>)
    requires Reached(s)
    ensures Reached(After(s, more))
    decreases |more|
  {
    if more != [] {
      ReachedAfter(s, more[..|more| - 1]);
      ReachedBy(After(s, more[..|more| - 1]), more[|more| - 1]);
    }
  }

  /** A closed player that has a request to clear left. */
  lemma ClearIsLeft() returns (actions: seq<Action>)
    ensures var s := Run(actions); !Session(s.d) && s.d.mode.Running? && s.convertQ != []
  {
    var s := ConverterIsAsked();
    s := ConverterMoved(s, ConverterTakes);
    s := ConverterMoved(s, ConverterFlushes);
    assert ConvertAborted in s.notes;
    var r := ClearCanOutlive(s);
    var more :| NoPlays(more) && After(s, more) == r;
    ReachedAfter(s, more);
    actions :| Run(actions) == r;
  }

  /** A run in which a seek starts although the file has not been sought for it. */
  lemma SeekStartsEarly() returns (actions: seq<Action>)
    ensures StartsEarly(actions)
  {
    var before := ClearIsLeft();
    OnlyClearsLeft(before);
    var p := Command(PlayRequest(true, Media(1, true, false, 0), false));
    actions := CanStartEarly(before, p);
  }
}
