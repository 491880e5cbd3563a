/** The flag that the end of the file has been reached: what sets and clears it, and when it comes from a place that the
    player has been asked to leave. */
module PlayerEof {
  import opened PlayerAborts
  import opened PlayerInvariants
  import opened PlayerMessages
  import opened PlayerModel
  import opened PlayerRuns
  import opened PlayerSeeks

  // ---- The flag ---------------------------------------------------------------------------------------------

  /** The step handles the notice of a read that reached the end. */
  predicate SeesEnd(s: Sys, a: Action) {
    a.TakeNote? && s.d.mode.Running? && s.notes != [] && s.notes[0] == ReadDone(true)
  }

  /** Whether such a notice has been handled since the last file was opened and the last seek was asked for. */
  function EndSeen(actions: seq<Action>): bool
    decreases |actions|
  {
    if actions == [] then false
    else
      var init, a := actions[..|actions| - 1], actions[|actions| - 1];
      !Opens(Run(init), a) && !AsksSeek(Run(init), a) && (SeesEnd(Run(init), a) || EndSeen(init))
  }

  lemma FlagMoves(s: Sys, a: Action)
    ensures Step(s, a).d.eof == (!Opens(s, a) && !AsksSeek(s, a) && (SeesEnd(s, a) || s.d.eof))
  {
    if !OfDecode(a) {
      OnlyDecodeWrites(s, a);
    } else if a.Command? && s.d.mode.Running? {
      CommandMovesFlag(s, a.cmd);
    } else if a.TakeNote? && s.notes != [] {
      NoticeKeepsQueue(s.(notes := s.notes[1..]), s.notes[0], a.drained);
      AwaitKeepsFlag(s.(notes := s.notes[1..]), s.notes[0]);
    }
  }

  lemma CommandMovesFlag(s: Sys, cmd: Cmd)
    requires s.d.mode.Running?
    ensures Obey(s, cmd).d.eof == (!Opens(s, Command(cmd)) && !AsksSeek(s, Command(cmd)) && s.d.eof)
  {
    match cmd {
      case PlayRequest(_, _, _) =>
      case SeekRequest(_) =>
      case AbortRequest(_) =>
      case _ =>
    }
  }

  lemma AwaitKeepsFlag(s: Sys, n: Note)
    ensures Await(s, n).d.eof == s.d.eof
  {
  }

  /** The flag says just that. */
  lemma {:induction false} FlagIs(actions: seq<Action>)
    ensures Run(actions).d.eof == EndSeen(actions)
    decreases |actions|
  {
    if actions != [] {
      FlagIs(actions[..|actions| - 1]);
      FlagMoves(Run(actions[..|actions| - 1]), actions[|actions| - 1]);
    }
  }

  // ---- A seek that is overtaken by a read -----------------------------------------------------------------

  /** Steps without a command to the decode thread. */
  predicate NoCommands(more: seq<Action>) {
    forall i | 0 <= i < |more| :: !more[i].Command?
  }

  /** A seek has been asked for, and the reader has not carried it out. */
  predicate Unsought(s: Sys) {
    Seek in s.readQ || s.reader.SeekingFile?
  }

  /** The end is said to be reached although the file is still to be sought. */
  predicate Stale(s: Sys) {
    Unsought(s) && s.d.eof
  }

  /** A read has not been answered, or has been with the end of the file and the answer has not been seen. */
  predicate EndCanCome(s: Sys) {
    Read in s.readQ || s.reader.Reading? || ReadDone(true) in s.notes
  }

  /** No request to read comes before one to seek. */
  predicate SeeksFirst(readQ: seq<ReadCmd>) {
    forall i, j | 0 <= i < j < |readQ| && readQ[j].Seek? :: !readQ[i].Read?
  }

  /** While the file is still to be sought, nothing can set the flag. */
  predicate Fresh(s: Sys) {
    Unsought(s) ==> !s.d.eof && ReadDone(true) !in s.notes && !s.reader.Reading? && SeeksFirst(s.readQ)
  }

  lemma ReaderStaysFresh(s: Sys, a: Action)
    requires Fresh(s)
    ensures Fresh(ReaderStep(s, a)) && (Unsought(ReaderStep(s, a)) ==> Unsought(s))
  {
    if a.ReaderTakes? && s.reader.ReaderIdle? && s.readQ != [] {
      assert s.readQ == [s.readQ[0]] + s.readQ[1..];
      if Seek in s.readQ[1..] {
        var j :| 0 <= j < |s.readQ[1..]| && s.readQ[1..][j] == Seek;
        assert s.readQ[j + 1] == Seek;
      }
    }
  }

  /** What the steps of the other two threads do not touch. */
  lemma OthersStayFresh(s: Sys, a: Action)
    requires Fresh(s) && !OfDecode(a) && ReaderStep(s, a) == s
    ensures var r := Step(s, a); Fresh(r) && (Unsought(r) ==> Unsought(s))
  {
    var r := Step(s, a);
    assert r.d == s.d && r.readQ == s.readQ && r.reader == s.reader;
    assert ReadDone(true) in r.notes ==> ReadDone(true) in s.notes;
  }

  lemma NoticeKeepsQueue(s: Sys, n: Note, drained: bool)
    ensures var r := Notice(s, n, drained);
            r.readQ == s.readQ && r.reader == s.reader && r.notes == s.notes && r.d.mode == s.d.mode &&
            r.d.eof == (s.d.eof || n == ReadDone(true))
  {
  }

  lemma DecodeStaysFresh(s: Sys, a: Action)
    requires Fresh(s) && OfDecode(a) && !a.Command?
    ensures var r := DecodeStep(s, a); Fresh(r) && (Unsought(r) ==> Unsought(s))
  {
    match a {
      case TakeNote(drained) =>
        if s.notes != [] && !s.d.mode.Exited? {
          var rest := s.(notes := s.notes[1..]);
          NoticeKeepsQueue(rest, s.notes[0], drained);
        }
      case _ =>
    }
  }

  lemma StaysFresh(s: Sys, a: Action)
    requires Fresh(s) && !a.Command?
    ensures Fresh(Step(s, a)) && (Unsought(Step(s, a)) ==> Unsought(s))
  {
    if OfDecode(a) {
      DecodeStaysFresh(s, a);
    } else if a.ReaderTakes? || a.ReaderReads? || a.ReaderInterrupted? || a.ReaderSought? || a.ReaderFlushes? {
      ReaderStaysFresh(s, a);
    } else {
      OthersStayFresh(s, a);
    }
  }

  lemma {:induction false} AllStayFresh(s: Sys, more: seq<Action>)
    requires Fresh(s) && NoCommands(more)
    ensures Fresh(After(s, more))
    decreases |more|
  {
    if more != [] {
      AllStayFresh(s, more[..|more| - 1]);
      StaysFresh(After(s, more[..|more| - 1]), more[|more| - 1]);
    }
  }

  // ---- A run in which it is overtaken -----------------------------------------------------------------------

  /** A state that some steps without a command lead to. */
  ghost predicate Comes(s: Sys, r: Sys) {
    exists more :: NoCommands(more) && After(s, more) == r
  }

  lemma ComesHere(s: Sys)
    ensures Comes(s, s)
  {
    assert After(s, []) == s && NoCommands([]);
  }

  lemma ComesOn(s: Sys, r: Sys, a: Action)
    requires Comes(s, r) && !a.Command?
    ensures Comes(s, Step(r, a))
  {
    var more :| NoCommands(more) && After(s, more) == r;
    AfterAppend(s, more, a);
    assert NoCommands(more + [a]);
  }

  /** The notice is handled. */
  lemma {:induction false} EndIsSeen(s: Sys, r: Sys) returns (t: Sys)
    requires Comes(s, r) && r.d.mode.Running? && Unsought(r) && ReadDone(true) in r.notes
    ensures Comes(s, t) && Stale(t)
    decreases |r.notes|
  {
    var a, rest := TakeNote(false), r.(notes := r.notes[1..]);
    NoticeKeepsQueue(rest, r.notes[0], false);
    ComesOn(s, r, a);
    t := Step(r, a);
    if r.notes[0] != ReadDone(true) {
      assert r.notes == [r.notes[0]] + r.notes[1..];
      t := EndIsSeen(s, t);
    }
  }

  lemma ReadEnds(s: Sys, r: Sys) returns (t: Sys)
    requires Comes(s, r) && r.d.mode.Running? && Unsought(r) && r.reader.Reading?
    ensures Comes(s, t) && Stale(t)
  {
    var a := ReaderReads(Eof);
    ComesOn(s, r, a);
    t := EndIsSeen(s, Step(r, a));
  }

  /** A request to read is in the queue, one to seek is behind it, and there is none to abort. */
  predicate Queues(q: seq<ReadCmd>) {
    AbortRead !in q && exists i, j :: 0 <= i < j < |q| && q[i].Read? && q[j].Seek?
  }

  lemma QueuesTail(q: seq<ReadCmd>)
    requires Queues(q)
    ensures q != [] && !q[0].AbortRead? && Seek in q && if q[0].Read? then Seek in q[1..] else Queues(q[1..])
  {
    var i, j :| 0 <= i < j < |q| && q[i].Read? && q[j].Seek?;
    assert q[1..][j - 1] == Seek;
    if !q[0].Read? {
      assert q[1..][i - 1].Read? && q[1..][j - 1].Seek?;
    }
  }

  lemma {:induction false} ReadComes(s: Sys, r: Sys) returns (t: Sys)
    requires Comes(s, r) && InSession(r) && Queues(r.readQ) && (r.reader.ReaderIdle? || r.reader.SeekingFile?)
    ensures Comes(s, t) && Stale(t)
    decreases |r.readQ|, if r.reader.SeekingFile? then 1 else 0
  {
    QueuesTail(r.readQ);
    if r.reader.SeekingFile? {
      ComesOn(s, r, ReaderSought);
      t := ReadComes(s, Step(r, ReaderSought));
    } else {
      ComesOn(s, r, ReaderTakes);
      t := Step(r, ReaderTakes);
      if r.readQ[0].Read? {
        t := ReadEnds(s, t);
      } else {
        t := ReadComes(s, t);
      }
    }
  }

  // ---- Exactly when -------------------------------------------------------------------------------------------

  /** The state behind a seek request. */
  lemma Asked(s: Sys, p: Action) returns (r: Sys)
    requires ReadOk(s) && AsksSeek(s, p)
    ensures r == Step(s, p) && InSession(r) && Unsought(r) && !r.d.eof && r.readQ == s.readQ + [Seek] && r.reader == s.reader
    ensures r.notes == s.notes && AbortRead !in s.readQ && !s.reader.ReaderAborting?
  {
    r := Step(s, p);
    CountNone(s.readQ, IsAbortRead);
    assert r.readQ[|s.readQ|] == Seek;
  }

  lemma CanBeOvertaken(s: Sys, p: Action) returns (t: Sys)
    requires ReadOk(s) && AsksSeek(s, p) && EndCanCome(s)
    ensures Comes(Step(s, p), t) && Stale(t)
  {
    var r := Asked(s, p);
    ComesHere(r);
    if ReadDone(true) in s.notes {
      t := EndIsSeen(r, r);
    } else if s.reader.Reading? {
      t := ReadEnds(r, r);
    } else {
      var i :| 0 <= i < |s.readQ| && s.readQ[i] == Read;
      assert r.readQ[i].Read? && r.readQ[|s.readQ|].Seek?;
      t := ReadComes(r, r);
    }
  }

  lemma CannotBeOvertaken(s: Sys, p: Action)
    requires ReadOk(s) && AsksSeek(s, p) && !EndCanCome(s)
    ensures Fresh(Step(s, p))
  {
    var r := Asked(s, p);
  }

  /** When a seek is asked for: some way of going on, without another command, has the end reached before the file has
      been sought if and only if a read is on its way, or the answer of one that reached the end. */
  lemma StaleExactlyWhen(actions: seq<Action>, p: Action)
    requires AsksSeek(Run(actions), p)
    ensures EndCanCome(Run(actions)) <==> exists more :: NoCommands(more) && Stale(Run(actions + [p] + more))
  {
    MessagesAlways(actions);
    RunAppend(actions, p);
    var s := Run(actions);
    if EndCanCome(s) {
      var t := CanBeOvertaken(s, p);
      var more :| NoCommands(more) && After(Step(s, p), more) == t;
      RunAfter(actions + [p], more);
    } else {
      CannotBeOvertaken(s, p);
      forall more | NoCommands(more) ensures !Stale(Run(actions + [p] + more)) {
        AllStayFresh(Step(s, p), more);
        RunAfter(actions + [p], more);
      }
    }
  }

  // ---- What comes of it ---------------------------------------------------------------------------------------

  lemma EndLastsStep(s: Sys, a: Action)
    requires s.d.eof && !a.Command?
    ensures Step(s, a).d.eof && Count(Step(s, a).readQ, IsRead) <= Count(s.readQ, IsRead)
  {
    FlagMoves(s, a);
    if OfDecode(a) {
      NoReadAsked(s, a);
    } else {
      ReadTaken(s, a);
    }
  }

  lemma NoReadAsked(s: Sys, a: Action)
    requires s.d.eof && OfDecode(a) && !a.Command?
    ensures DecodeStep(s, a).readQ == s.readQ
  {
    if a.TakeNote? && s.notes != [] {
      NoticeKeepsQueue(s.(notes := s.notes[1..]), s.notes[0], a.drained);
    }
  }

  lemma ReadTaken(s: Sys, a: Action)
    requires !OfDecode(a)
    ensures Count(Step(s, a).readQ, IsRead) <= Count(s.readQ, IsRead)
  {
  }

  /** The flag stays until the next command, also when the file has been sought; and until then no read is asked for. */
  lemma {:induction false} EndLasts(s: Sys, more: seq<Action>)
    requires s.d.eof && NoCommands(more)
    ensures After(s, more).d.eof && Count(After(s, more).readQ, IsRead) <= Count(s.readQ, IsRead)
    decreases |more|
  {
    if more != [] {
      EndLasts(s, more[..|more| - 1]);
      EndLastsStep(After(s, more[..|more| - 1]), more[|more| - 1]);
    }
  }

  /** A run of this kind: a seek right after a file has been opened. */
  lemma SeekIsOvertaken() returns (actions: seq<Action>)
    ensures Stale(Run(actions))
  {
    var play, seek := Command(PlayRequest(true, Media(1, true, false, 0), false)), Command(SeekRequest(0));
    assert Run([]) == START;
    RunAppend([], play);
    assert [] + [play] == [play];
    assert Run([play]).readQ == [Read];
    StaleExactlyWhen([play], seek);
    var more :| NoCommands(more) && Stale(Run([play] + [seek] + more));
    actions := [play] + [seek] + more;
  }
}
