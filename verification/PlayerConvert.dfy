/** An abort stops the convert thread: it converts nothing until it is asked to convert again. */
module PlayerConvert {
  import opened PlayerInvariants
  import opened PlayerMessages
  import opened PlayerModel

  predicate IsConvert(c: ConvertCmd) { c.Convert? }
  predicate IsAbortConvert(c: ConvertCmd) { c.AbortConvert? }
  predicate IsConvertAborted(n: Note) { n.ConvertAborted? }

  function ConvertAborts(convertQ: seq<ConvertCmd>, converter: Converter, notes: seq<Note>): nat {
    Count(convertQ, IsAbortConvert) + (if converter.ConverterAborting? then 1 else 0) + Count(notes, IsConvertAborted)
  }

  /** The convert thread converts nothing and has not been asked to. It may have been asked to clear its cache. */
  predicate Still(convertQ: seq<ConvertCmd>, converter: Converter, should: bool) {
    !should && !converter.Converting? && Count(convertQ, IsConvert) == 0
  }

  predicate ConvertInv(d: Decode, convertQ: seq<ConvertCmd>, converter: Converter, should: bool, notes: seq<Note>) {
    Playback(d) &&
    ConvertAborts(convertQ, converter, notes) == (if d.mode.AwaitConvert? then 1 else 0) &&
    (!Session(d) || d.mode.AwaitVideo? ==> Still(convertQ, converter, should)) &&
    (Count(notes, IsConvertAborted) > 0 ==> Still(convertQ, converter, should)) &&
    (converter.ConverterAborting? ==> !should) &&
    (converter.Converting? ==> should)
  }

  lemma ConvertOthers(d: Decode, convertQ: seq<ConvertCmd>, converter: Converter, should: bool, notes: seq<Note>, n: Note)
    requires ConvertInv(d, convertQ, converter, should, notes) && !n.ConvertAborted?
    ensures ConvertInv(d, convertQ, converter, should, notes + [n])
  {
    CountAppend(notes, n, IsConvertAborted);
  }

  lemma ConvertNotifies(d: Decode, convertQ: seq<ConvertCmd>, converter: Converter, should: bool, notes: seq<Note>, n: Note)
    requires ConvertInv(d, convertQ, converter, should, notes) && !n.ConvertAborted? && !converter.ConverterAborting?
    ensures ConvertInv(d, convertQ, ConverterIdle, should, notes + [n])
  {
    CountAppend(notes, n, IsConvertAborted);
  }

  lemma ConvertFlushed(d: Decode, convertQ: seq<ConvertCmd>, should: bool, notes: seq<Note>)
    requires ConvertInv(d, convertQ, ConverterAborting, should, notes)
    ensures ConvertInv(d, [], ConverterIdle, should, notes + [ConvertAborted])
  {
    CountAppend(notes, ConvertAborted, IsConvertAborted);
  }

  lemma ConvertTook(d: Decode, convertQ: seq<ConvertCmd>, should: bool, notes: seq<Note>)
    requires ConvertInv(d, convertQ, ConverterIdle, should, notes) && convertQ != []
    ensures convertQ[0].Convert? && Session(d) ==> ConvertInv(d, convertQ[1..], ConverterIdle, true, notes)
    ensures !convertQ[0].AbortConvert? ==> ConvertInv(d, convertQ[1..], ConverterIdle, should, notes)
    ensures convertQ[0].ClearConvert? ==> ConvertInv(d, convertQ[1..], ClearingConvert, should, notes)
    ensures convertQ[0].AbortConvert? ==> ConvertInv(d, convertQ[1..], ConverterAborting, false, notes)
  {
  }

  lemma ConvertSeen(d: Decode, d': Decode, convertQ: seq<ConvertCmd>, converter: Converter, should: bool, notes: seq<Note>)
    requires ConvertInv(d, convertQ, converter, should, notes) && notes != [] && Playback(d')
    requires if notes[0].ConvertAborted? then d'.mode.AwaitVideo?
             else d'.mode.AwaitConvert? == d.mode.AwaitConvert? &&
                  (!Session(d') || d'.mode.AwaitVideo? ==> !Session(d) || d.mode.AwaitVideo?)
    ensures ConvertInv(d', convertQ, converter, should, notes[1..])
  {
  }

  lemma ConvertSame(d: Decode, d': Decode, convertQ: seq<ConvertCmd>, converter: Converter, should: bool, notes: seq<Note>)
    requires ConvertInv(d, convertQ, converter, should, notes) && Playback(d') && d'.mode.AwaitConvert? == d.mode.AwaitConvert?
    requires !Session(d') || d'.mode.AwaitVideo? ==> !Session(d) || d.mode.AwaitVideo?
    ensures ConvertInv(d', convertQ, converter, should, notes)
  {
  }

  lemma ConvertSends(d: Decode, d': Decode, convertQ: seq<ConvertCmd>, converter: Converter, should: bool, notes: seq<Note>, cmd: ConvertCmd)
    requires ConvertInv(d, convertQ, converter, should, notes) && Playback(d')
    requires match cmd
             case Convert => d.mode.Running? && d'.mode.Running? && Session(d')
             case ClearConvert => d' == d
             case AbortConvert => d.mode.AwaitRead? && d'.mode.AwaitConvert? && Session(d')
    ensures ConvertInv(d', convertQ + [cmd], converter, should, notes)
  {
    CountAppend(convertQ, cmd, IsConvert);
    CountAppend(convertQ, cmd, IsAbortConvert);
  }

  predicate ConvertOk(s: Sys) {
    ConvertInv(s.d, s.convertQ, s.converter, s.shouldConvert, s.notes)
  }

  lemma ConvertObeys(s: Sys, cmd: Cmd)
    requires ConvertOk(s) && s.d.mode.Running?
    ensures ConvertOk(Obey(s, cmd))
  {
    ObeyKeeps(s, cmd);
    var d' := Obey(s, cmd).d;
    match cmd {
      case PlayRequest(found, m, buffer) =>
        if ValidMedia(m) && !Session(s.d) {
          StartKeeps(m, buffer);
          StartKeeps(m, false);
          if found {
            ConvertSends(s.d, d', s.convertQ, s.converter, s.shouldConvert, s.notes, Convert);
          } else {
            ConvertSame(s.d, d', s.convertQ, s.converter, s.shouldConvert, s.notes);
          }
        }
      case SeekRequest(_) =>
        if Session(s.d) {
          SeekKeeps(s.d.c, s.d.media.speaker);
          ConvertSame(s.d, d', s.convertQ, s.converter, s.shouldConvert, s.notes);
        }
      case AbortRequest(end) => ConvertSame(s.d, d', s.convertQ, s.converter, s.shouldConvert, s.notes);
      case _ => ControlOnly(s, cmd); ConvertSame(s.d, d', s.convertQ, s.converter, s.shouldConvert, s.notes);
    }
  }

  lemma ConvertSees(s: Sys, drained: bool)
    requires ConvertOk(s)
    ensures ConvertOk(DecodeStep(s, TakeNote(drained)))
  {
    if s.notes != [] && !s.d.mode.Exited? {
      var rest, n := s.(notes := s.notes[1..]), s.notes[0];
      if s.d.mode.Running? {
        NoticeShape(rest, n, drained);
        ConvertSeen(s.d, Notice(rest, n, drained).d, s.convertQ, s.converter, s.shouldConvert, s.notes);
      } else {
        ConvertAwaits(s, n);
      }
    }
  }

  lemma ConvertAwaits(s: Sys, n: Note)
    requires ConvertOk(s) && s.notes != [] && n == s.notes[0] && !s.d.mode.Running? && !s.d.mode.Exited?
    ensures ConvertOk(Await(s.(notes := s.notes[1..]), n))
  {
    var rest := s.(notes := s.notes[1..]);
    AwaitKeeps(rest, n);
    var r := Await(rest, n);
    if r.convertQ != s.convertQ {
      ConvertSeen(s.d, s.d, s.convertQ, s.converter, s.shouldConvert, s.notes);
      ConvertSends(s.d, r.d, s.convertQ, s.converter, s.shouldConvert, rest.notes, AbortConvert);
    } else {
      ConvertSeen(s.d, r.d, s.convertQ, s.converter, s.shouldConvert, s.notes);
    }
  }

  lemma ConvertDecode(s: Sys, a: Action)
    requires ConvertOk(s) && OfDecode(a)
    ensures ConvertOk(DecodeStep(s, a))
  {
    PlaybackKept(s, a);
    match a {
      case Command(cmd) => if s.d.mode.Running? { ConvertObeys(s, cmd); }
      case TakeNote(drained) => ConvertSees(s, drained);
      case NoMoreToBuffer => ConvertOthers(s.d, s.convertQ, s.converter, s.shouldConvert, s.notes, Buffered);
      case HandlePacket(video, pos, passed) =>
        if s.d.mode.Running? && Active(s.d.c) && !s.d.waitingVideo {
          PacketShape(s, video, pos, passed);
          ConvertSame(s.d, Packet(s, video, pos, passed).d, s.convertQ, s.converter, s.shouldConvert, s.notes);
        }
      case _ =>
    }
  }

  lemma ConvertConvert(s: Sys, a: Action)
    requires ConvertOk(s)
    ensures ConvertOk(ConvertStep(s, a))
  {
    match a {
      case ConverterTakes =>
        if s.converter.ConverterIdle? && s.convertQ != [] { ConvertTook(s.d, s.convertQ, s.shouldConvert, s.notes); }
      case ConverterClears =>
        if s.converter.ClearingConvert? { ConvertNotifies(s.d, s.convertQ, s.converter, s.shouldConvert, s.notes, Cleared); }
      case ConverterFlushes =>
        if s.converter.ConverterAborting? { ConvertFlushed(s.d, s.convertQ, s.shouldConvert, s.notes); }
      case RunsOut =>
        if s.converter.Converting? { ConvertNotifies(s.d, s.convertQ, s.converter, s.shouldConvert, s.notes, Underrun); }
      case HasBuffered =>
        if s.converter.Converting? { ConvertNotifies(s.d, s.convertQ, s.converter, s.shouldConvert, s.notes, Buffered); }
      case _ =>
    }
  }

  lemma ConvertByReader(s: Sys, a: Action)
    requires ConvertOk(s)
    ensures ConvertOk(ReaderStep(s, a))
  {
    ConvertOthers(s.d, s.convertQ, s.converter, s.shouldConvert, s.notes, ReadDone(true));
    ConvertOthers(s.d, s.convertQ, s.converter, s.shouldConvert, s.notes, ReadDone(false));
    ConvertOthers(s.d, s.convertQ, s.converter, s.shouldConvert, s.notes, SeekDone);
    ConvertOthers(s.d, s.convertQ, s.converter, s.shouldConvert, s.notes, ReadAborted);
  }

  lemma ConvertByVideo(s: Sys, a: Action)
    requires ConvertOk(s)
    ensures ConvertOk(VideoStep(s, a))
  {
    ConvertOthers(s.d, s.convertQ, s.converter, s.shouldConvert, s.notes, Copied);
    ConvertOthers(s.d, s.convertQ, s.converter, s.shouldConvert, s.notes, VideoAborted);
    ConvertSends(s.d, s.d, s.convertQ, s.converter, s.shouldConvert, s.notes, ClearConvert);
  }

  lemma ConvertKept(s: Sys, a: Action)
    requires ConvertOk(s)
    ensures ConvertOk(Step(s, a))
  {
    if OfDecode(a) {
      ConvertDecode(s, a);
    } else {
      ConvertConvert(s, a);
      ConvertByReader(s, a);
      ConvertByVideo(s, a);
    }
  }
}
