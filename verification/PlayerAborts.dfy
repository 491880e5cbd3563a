/** What an abort leaves in the queue of the convert thread. */
module PlayerAborts {
  import opened PlayerConvert
  import opened PlayerInvariants
  import opened PlayerMessages
  import opened PlayerModel
  import opened PlayerRuns
  import opened PlayerVideo

  // ---- Continuations ------------------------------------------------------------------------------------

  function After(s: Sys, more: seq<Action>): Sys
    decreases |more|
  {
    if more == [] then s else Step(After(s, more[..|more| - 1]), more[|more| - 1])
  }

  lemma {:induction false} RunAfter(actions: seq<Action>, more: seq<Action>)
    ensures Run(actions + more) == After(Run(actions), more)
    decreases |more|
  {
    if more == [] {
      assert actions + more == actions;
    } else {
      var init, a := more[..|more| - 1], more[|more| - 1];
      RunAfter(actions, init);
      RunAppend(actions + init, a);
      assert actions + more == actions + init + [a];
    }
  }

  /** Some continuation without a play request leads from one state to the other. */
  ghost predicate Leads(s: Sys, r: Sys) {
    exists more :: NoPlays(more) && After(s, more) == r
  }

  lemma LeadsHere(s: Sys)
    ensures Leads(s, s)
  {
    assert After(s, []) == s;
  }

  lemma AfterAppend(s: Sys, more: seq<Action>, a: Action)
    ensures After(s, more + [a]) == Step(After(s, more), a)
  {
    assert (more + [a])[..|more|] == more;
  }

  lemma LeadsOn(s: Sys, r: Sys, a: Action)
    requires Leads(s, r) && !Plays(a)
    ensures Leads(s, Step(r, a))
  {
    var more :| NoPlays(more) && After(s, more) == r;
    AfterAppend(s, more, a);
    assert NoPlays(more + [a]);
  }

  // ---- What is left after an abort ----------------------------------------------------------------------

  predicate IsClear(c: VideoCmd) { c.ClearVideo? }

  /** A request to clear is on its way through the decode-video thread. */
  predicate ClearPending(s: Sys) {
    Count(s.videoQ, IsClear) > 0 || s.video.ClearingVideo?
  }

  /** In a closed player nothing is left in the convert thread's queue but requests to clear its cache. */
  lemma OnlyClearsLeft(actions: seq<Action>)
    ensures var s := Run(actions); !Session(s.d) ==> forall i | 0 <= i < |s.convertQ| :: s.convertQ[i] == ClearConvert
  {
    MessagesAlways(actions);
    var s := Run(actions);
    if !Session(s.d) {
      CountNone(s.convertQ, IsConvert);
      CountNone(s.convertQ, IsAbortConvert);
    }
  }

  /** The convert thread has emptied its queue for an abort, and nothing will be added. */
  predicate ClearFree(s: Sys) {
    Playback(s.d) && (s.d.mode.AwaitConvert? || s.d.mode.AwaitVideo? || !Session(s.d)) && s.convertQ == [] && !ClearPending(s)
  }

  lemma CommandStaysFree(s: Sys, cmd: Cmd)
    requires ClearFree(s) && s.d.mode.Running? && !cmd.PlayRequest?
    ensures ClearFree(Obey(s, cmd))
  {
    ObeyKeeps(s, cmd);
  }

  lemma NoticeStaysFree(s: Sys, n: Note, drained: bool)
    requires ClearFree(s) && s.d.mode.Running?
    ensures ClearFree(Notice(s, n, drained))
  {
    NoticeShape(s, n, drained);
  }

  lemma AwaitStaysFree(s: Sys, n: Note)
    requires ClearFree(s)
    ensures ClearFree(Await(s, n))
  {
    AwaitKeeps(s, n);
    CountAppend(s.videoQ, AbortVideo, IsClear);
  }

  lemma DecodeStaysFree(s: Sys, a: Action)
    requires ClearFree(s) && OfDecode(a) && !Plays(a)
    ensures ClearFree(DecodeStep(s, a))
  {
    match a {
      case Command(cmd) => if s.d.mode.Running? { CommandStaysFree(s, cmd); }
      case TakeNote(drained) =>
        if s.notes != [] && !s.d.mode.Exited? {
          var rest := s.(notes := s.notes[1..]);
          if s.d.mode.Running? { NoticeStaysFree(rest, s.notes[0], drained); } else { AwaitStaysFree(rest, s.notes[0]); }
        }
      case _ => PlaybackKept(s, a);
    }
  }

  lemma StaysFree(s: Sys, a: Action)
    requires ClearFree(s) && !Plays(a)
    ensures ClearFree(Step(s, a))
  {
    if OfDecode(a) {
      DecodeStaysFree(s, a);
    } else {
      OnlyDecodeWrites(s, a);
    }
  }

  lemma {:induction false} AllStaysFree(s: Sys, more: seq<Action>)
    requires ClearFree(s) && NoPlays(more)
    ensures ClearFree(After(s, more))
    decreases |more|
  {
    if more != [] {
      AllStaysFree(s, more[..|more| - 1]);
      StaysFree(After(s, more[..|more| - 1]), more[|more| - 1]);
    }
  }

  // ---- The other direction: the threads can be scheduled so that the request outlives the abort ----------

  /** The decode-video thread is not told to abort yet, and the convert thread has been. */
  predicate Draining(s: Sys) {
    Session(s.d) && s.d.mode.AwaitConvert? && Count(s.videoQ, IsAbortVideo) == 0 && !s.video.VideoAborting?
  }

  /** How many steps the decode-video thread has before it: at most three for each request. */
  function Work(s: Sys): nat {
    3 * |s.videoQ| + match s.video case VideoIdle => 0 case Decoding => 1 case _ => 2
  }

  /** The next step of a decode-video thread that is not done. */
  function NextVideo(s: Sys): Action {
    match s.video
    case VideoIdle => VideoTakes
    case Copying => VideoCopies(false)
    case Decoding => VideoDecodes
    case ClearingVideo => VideoClears
    case VideoAborting => VideoFlushes
  }

  lemma VideoWorks(s: Sys)
    requires Draining(s) && (s.videoQ != [] || !s.video.VideoIdle?)
    ensures var r := Step(s, NextVideo(s));
            Draining(r) && r.d == s.d && Work(r) < Work(s) && s.notes <= r.notes &&
            (ClearPending(s) || s.convertQ != [] ==> ClearPending(r) || r.convertQ != [])
  {
  }

  /** The decode-video thread can finish what it has been asked for before the abort goes on. */
  lemma {:induction false} VideoDrains(s0: Sys, s: Sys) returns (r: Sys)
    requires Leads(s0, s) && Draining(s)
    ensures Leads(s0, r) && r.d == s.d && s.notes <= r.notes && r.videoQ == [] && r.video.VideoIdle?
    ensures ClearPending(s) || s.convertQ != [] ==> r.convertQ != []
    decreases Work(s)
  {
    if s.videoQ == [] && s.video.VideoIdle? {
      r := s;
    } else {
      VideoWorks(s);
      LeadsOn(s0, s, NextVideo(s));
      r := VideoDrains(s0, Step(s, NextVideo(s)));
    }
  }

  /** The notice for which the decode thread waits. */
  function Awaited(mode: Mode): Note {
    if mode.AwaitRead? then ReadAborted else if mode.AwaitConvert? then ConvertAborted else VideoAborted
  }

  predicate Awaits(s: Sys) {
    s.d.mode.AwaitConvert? || s.d.mode.AwaitVideo?
  }

  /** A decode thread whose awaited notice is there gets to it, dropping the others. */
  lemma {:induction false} NoticeComes(s0: Sys, s: Sys) returns (r: Sys)
    requires Leads(s0, s) && Awaits(s) && Awaited(s.d.mode) in s.notes
    ensures Leads(s0, r) && r == Await(s, Awaited(s.d.mode)).(notes := r.notes)
    decreases |s.notes|
  {
    var next := Step(s, TakeNote(false));
    LeadsOn(s0, s, TakeNote(false));
    if s.notes[0] == Awaited(s.d.mode) {
      r := next;
    } else {
      assert next == s.(notes := s.notes[1..]);
      r := NoticeComes(s0, next);
    }
  }

  lemma VideoGivesUp(s0: Sys, s: Sys) returns (r: Sys)
    requires Leads(s0, s) && s.videoQ == [AbortVideo] && s.video.VideoIdle? && s.d.mode.AwaitVideo?
    ensures Leads(s0, r) && r == s.(videoQ := [], notes := s.notes + [VideoAborted])
  {
    LeadsOn(s0, s, VideoTakes);
    r := Step(s, VideoTakes);
    LeadsOn(s0, r, VideoFlushes);
    r := Step(r, VideoFlushes);
  }

  lemma ClearCanOutlive(s0: Sys) returns (r: Sys)
    requires Draining(s0) && ConvertAborted in s0.notes && ClearPending(s0)
    ensures Leads(s0, r) && !Session(r.d) && r.convertQ != [] && (r.d.mode.Running? || s0.d.mode.end.Shutdown?)
  {
    LeadsHere(s0);
    r := VideoDrains(s0, s0);
    assert ConvertAborted in r.notes;
    r := NoticeComes(s0, r);
    r := VideoGivesUp(s0, r);
    r := NoticeComes(s0, r);
  }

  /** The player is closed, and the convert thread still has a request to clear its cache. */
  predicate Leftover(s: Sys) {
    !Session(s.d) && ClearConvert in s.convertQ
  }

  lemma LeadsLater(actions: seq<Action>, r: Sys)
    requires Leads(Run(actions), r)
    ensures exists more :: NoPlays(more) && Run(actions + more) == r
  {
    var more :| NoPlays(more) && After(Run(actions), more) == r;
    RunAfter(actions, more);
  }

  /** When the queue has been emptied, the notice of that is there, and the decode-video thread has not been told. */
  lemma Flushed(actions: seq<Action>)
    requires Run(actions).converter.ConverterAborting?
    ensures var s, s0 := Run(actions), Run(actions + [ConverterFlushes]);
            Draining(s0) && ConvertAborted in s0.notes && s0.convertQ == [] && ClearPending(s0) == ClearPending(s) && Playback(s0.d)
  {
    RunAppend(actions, ConverterFlushes);
    MessagesAlways(actions);
    var s := Run(actions);
    assert Step(s, ConverterFlushes) == s.(converter := ConverterIdle, convertQ := [], notes := s.notes + [ConvertAborted]);
  }

  lemma Outlasts(actions: seq<Action>, r: Sys)
    requires Leads(Run(actions), r) && !Session(r.d) && r.convertQ != []
    ensures exists more :: NoPlays(more) && Leftover(Run(actions + more))
  {
    LeadsLater(actions, r);
    var more :| NoPlays(more) && Run(actions + more) == r;
    OnlyClearsLeft(actions + more);
    assert r.convertQ[0] == ClearConvert;
  }

  lemma PendingOutlives(actions: seq<Action>)
    requires Run(actions).converter.ConverterAborting? && ClearPending(Run(actions))
    ensures exists more :: NoPlays(more) && Leftover(Run(actions + [ConverterFlushes] + more))
  {
    var flushed := actions + [ConverterFlushes];
    Flushed(actions);
    var r := ClearCanOutlive(Run(flushed));
    Outlasts(flushed, r);
  }

  lemma NothingOutlives(actions: seq<Action>, more: seq<Action>)
    requires Run(actions).converter.ConverterAborting? && !ClearPending(Run(actions)) && NoPlays(more)
    ensures Run(actions + [ConverterFlushes] + more).convertQ == []
  {
    var flushed := actions + [ConverterFlushes];
    Flushed(actions);
    AllStaysFree(Run(flushed), more);
    RunAfter(flushed, more);
  }

  /** When the convert thread empties its queue for an abort: some way of going on without a play request leaves
      a request to clear in the queue of the closed player if and only if such a request is just then on its way
      through the decode-video thread. */
  lemma OutlivesExactlyWhen(actions: seq<Action>)
    requires Run(actions).converter.ConverterAborting?
    ensures ClearPending(Run(actions)) <==>
              exists more :: NoPlays(more) && Leftover(Run(actions + [ConverterFlushes] + more))
  {
    if ClearPending(Run(actions)) {
      PendingOutlives(actions);
    } else {
      forall more | NoPlays(more) ensures !Leftover(Run(actions + [ConverterFlushes] + more)) {
        NothingOutlives(actions, more);
      }
    }
  }

  // ---- Such a run ----------------------------------------------------------------------------------------

  lemma Noticed(s: Sys) returns (r: Sys)
    requires Reached(s) && s.notes != [] && !s.d.mode.Exited?
    ensures var rest := s.(notes := s.notes[1..]);
            Reached(r) && r == if s.d.mode.Running? then Notice(rest, s.notes[0], false) else Await(rest, s.notes[0])
  {
    r := Step(s, TakeNote(false));
    ReachedBy(s, TakeNote(false));
  }

  lemma ReaderMoved(s: Sys, a: Action) returns (r: Sys)
    requires Reached(s) && (a.ReaderTakes? || a.ReaderReads? || a.ReaderSought? || a.ReaderFlushes?)
    ensures Reached(r) && r == ReaderStep(s, a)
  {
    r := Step(s, a);
    ReachedBy(s, a);
  }

  lemma VideoMoved(s: Sys, a: Action) returns (r: Sys)
    requires Reached(s) && (a.VideoTakes? || a.VideoClears? || a.VideoFlushes?)
    ensures Reached(r) && r == VideoStep(s, a)
  {
    r := Step(s, a);
    ReachedBy(s, a);
  }

  lemma ConverterMoved(s: Sys, a: Action) returns (r: Sys)
    requires Reached(s) && (a.ConverterTakes? || a.ConverterFlushes?)
    ensures Reached(r) && r == ConvertStep(s, a)
  {
    r := Step(s, a);
    ReachedBy(s, a);
  }

  /** A session with nothing under way but what the decode-video thread and the converter are asked to do. */
  predicate Settled(s: Sys, mode: Mode, notes: seq<Note>, videoQ: seq<VideoCmd>, convertQ: seq<ConvertCmd>, video: VideoDecoder) {
    s.d.mode == mode && s.d.c.state.PrepareSeeking? && s.d.media.tracks == 1 && s.readQ == [] && s.reader.ReaderIdle? &&
    s.notes == notes && s.videoQ == videoQ && s.convertQ == convertQ && s.video == video && s.converter.ConverterIdle?
  }

  lemma SeekIsAsked() returns (s: Sys)
    ensures Reached(s) && s.readQ == [Read, Seek] && Settled(s.(readQ := []), Running, [], [], [Convert], VideoIdle)
  {
    assert Run([]) == START;
    s := Obeyed(START, PlayRequest(true, Media(1, true, false, 0), false));
    assert s.readQ == [Read] && s.d.c.state.Playing?;
    s := Obeyed(s, SeekRequest(0));
  }

  lemma ReaderHasRead() returns (s: Sys)
    ensures Reached(s) && s.readQ == [Seek] && Settled(s.(readQ := []), Running, [ReadDone(false)], [], [Convert], VideoIdle)
  {
    s := SeekIsAsked();
    s := ReaderMoved(s, ReaderTakes);
    s := ReaderMoved(s, ReaderReads(Full));
  }

  lemma SeekHasSought() returns (s: Sys)
    ensures Reached(s) && Settled(s, Running, [ReadDone(false), SeekDone], [], [Convert], VideoIdle)
  {
    s := ReaderHasRead();
    s := ReaderMoved(s, ReaderTakes);
    s := ReaderMoved(s, ReaderSought);
  }

  lemma ClearIsAsked() returns (s: Sys)
    ensures Reached(s) && Settled(s, Running, [], [ClearVideo], [Convert], VideoIdle)
  {
    s := SeekHasSought();
    s := Noticed(s);
    assert Settled(s, Running, [SeekDone], [], [Convert], VideoIdle);
    s := Noticed(s);
  }

  lemma SeekIsClearing() returns (s: Sys)
    ensures Reached(s) && Settled(s, Running, [], [], [Convert], ClearingVideo)
  {
    s := ClearIsAsked();
    s := VideoMoved(s, VideoTakes);
  }

  lemma AbortIsAsked() returns (s: Sys)
    ensures Reached(s) && s.readQ == [AbortRead] && Settled(s.(readQ := []), AwaitRead(Stop), [], [], [Convert], ClearingVideo)
  {
    s := SeekIsClearing();
    s := Obeyed(s, AbortRequest(Stop));
  }

  lemma ReaderHasAborted() returns (s: Sys)
    ensures Reached(s) && Settled(s, AwaitRead(Stop), [ReadAborted], [], [Convert], ClearingVideo)
  {
    s := AbortIsAsked();
    s := ReaderMoved(s, ReaderTakes);
    s := ReaderMoved(s, ReaderFlushes);
  }

  lemma ConverterIsTold() returns (s: Sys)
    ensures Reached(s) && Settled(s, AwaitConvert(Stop), [], [], [Convert, AbortConvert], ClearingVideo)
  {
    s := ReaderHasAborted();
    s := Noticed(s);
  }

  lemma ConverterIsAsked() returns (s: Sys)
    ensures Reached(s) && Settled(s, AwaitConvert(Stop), [], [], [AbortConvert], ClearingVideo)
  {
    s := ConverterIsTold();
    s := ConverterMoved(s, ConverterTakes);
  }

  /** A run in which a request to clear is pending when the convert thread empties its queue, and is left over. */
  lemma ClearOutlivesAbort() returns (actions: seq<Action>, more: seq<Action>)
    ensures Run(actions).converter.ConverterAborting? && ClearPending(Run(actions)) && NoPlays(more)
    ensures Leftover(Run(actions + [ConverterFlushes] + more))
  {
    var s := ConverterIsAsked();
    s := ConverterMoved(s, ConverterTakes);
    actions :| Run(actions) == s;
    PendingOutlives(actions);
    more :| NoPlays(more) && Leftover(Run(actions + [ConverterFlushes] + more));
  }
}
