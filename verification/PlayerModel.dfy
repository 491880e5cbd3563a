/** The player engine: the decode thread, which alone changes the player's state, and the read-packet,
    decode-video and convert threads, connected by FIFO queues. Every step of a thread is an action, and a
    run is any sequence of actions. */
module PlayerModel {
  const SEEK_IGNORE_PACKETS: nat := 5
  const SEEK_BACKWARD_TIMEOUT: nat := 20
  const MAX_THREADS: nat := 8

  datatype State = Idle | PreparePlaying | Playing | Pause | Buffering | PrepareSeeking | Seeking

  /** What an opened file has: video tracks, normal videos rather than a cover picture, an open speaker, and
      frame threads. */
  datatype Media = Media(tracks: nat, normal: bool, speaker: bool, threads: nat)

  predicate ValidMedia(m: Media) {
    (m.normal ==> m.tracks > 0) && m.threads <= MAX_THREADS && (m.tracks == 0 ==> m.threads == 0)
  }

  /** The decode thread between two messages, or waiting for another thread to finish aborting. */
  datatype Mode = Running | AwaitRead(end: Ending) | AwaitConvert(end: Ending) | AwaitVideo(end: Ending) | Exited

  /** What follows an abort: the next file, nothing, or the end of the threads. */
  datatype Ending = PlayNext | Stop | Shutdown

  /** The player's state, its sub-state bit RESUME_LATER, and the speaker's pause; and what the user last asked
      for, which is not in the program. */
  datatype Control = Control(state: State, resumeLater: bool, paused: bool, intent: bool)

  /** The sub-state bit SEEK_BACKWARD_WAIT and the counters of a seek; and the packets the seek has looked at,
      which are not counted in the program. */
  datatype Wait = Wait(backward: bool, waitCount: nat, backwardTimeout: nat, packets: nat)

  /** What the decode thread owns. */
  datatype Decode = Decode(
    mode: Mode,
    c: Control,
    wait: Wait,
    media: Media,
    readActive: bool,
    waitingVideo: bool,
    eof: bool,
    seekPos: int,
    seekStartPos: int
  )

  datatype ReadCmd = Read | Seek | AbortRead
  datatype VideoCmd = DecodeFrame | ClearVideo | AbortVideo
  datatype ConvertCmd = Convert | ClearConvert | AbortConvert

  datatype Note =
    | ReadDone(eof: bool) | SeekDone | ReadAborted
    | Copied | VideoAborted
    | Cleared | Underrun | ConvertAborted
    | Buffered

  /** What a thread is in the middle of. */
  datatype Reader = ReaderIdle | Reading | SeekingFile | ReaderAborting
  datatype VideoDecoder = VideoIdle | Copying | Decoding | ClearingVideo | VideoAborting
  datatype Converter = ConverterIdle | Converting | ClearingConvert | ConverterAborting

  datatype Sys = Sys(
    d: Decode,
    notes: seq<Note>,
    readQ: seq<ReadCmd>,
    videoQ: seq<VideoCmd>,
    convertQ: seq<ConvertCmd>,
    reader: Reader,
    video: VideoDecoder,
    converter: Converter,
    shouldConvert: bool
  )

  /** A file is open, or being opened. */
  predicate Open(c: Control) {
    !c.state.Idle? && !c.state.PreparePlaying?
  }

  predicate Session(d: Decode) {
    Open(d.c)
  }

  const NO_MEDIA: Media := Media(0, false, false, 0)

  const START: Sys := Sys(
    Decode(Running, Control(Idle, false, false, false), Wait(false, SEEK_IGNORE_PACKETS, SEEK_BACKWARD_TIMEOUT, 0),
           NO_MEDIA, false, false, false, 0, 0),
    [], [], [], [], ReaderIdle, VideoIdle, ConverterIdle, false)

  // ---- Commands to the decode thread ---------------------------------------------------------------

  /** Pausing and resuming reach the speaker only while it is open. */
  function PauseSpeaker(c: Control, speaker: bool): (r: Control)
    ensures r.intent == c.intent
  {
    if speaker then c.(paused := true) else c
  }

  function ResumeSpeaker(c: Control, speaker: bool): (r: Control)
    ensures r.intent == c.intent
  {
    if speaker then c.(paused := false) else c
  }

  /** Playback of a file that has just been opened, at once or after buffering. */
  function StartControl(m: Media, buffer: bool): Control {
    if buffer && m.normal then PauseSpeaker(Control(Buffering, true, false, true), m.speaker)
    else Control(Playing, false, false, true)
  }

  /** A play request: the file fails to open; or it opens, and playback starts. With a file open, the program
      aborts first and asks itself again. */
  function Play(s: Sys, found: bool, m: Media, buffer: bool): Sys {
    if Session(s.d) then s
    else
      var wait := s.d.wait.(backward := false, waitCount := SEEK_IGNORE_PACKETS);
      if found then
        s.(d := Decode(s.d.mode, StartControl(m, buffer), wait, m, true, false, false, 0, 0),
           readQ := s.readQ + [Read], convertQ := s.convertQ + [Convert])
      else s.(d := Decode(s.d.mode, StartControl(m, false), wait, m, false, false, false, 0, 0))
  }

  function PauseCmd(c: Control, speaker: bool): Control {
    match c.state
    case Idle => c
    case PreparePlaying => c
    case Pause => c.(intent := false)
    case Playing => PauseSpeaker(c.(state := Pause, intent := false), speaker)
    case _ => c.(resumeLater := false, intent := false)
  }

  function ResumeCmd(c: Control, speaker: bool): Control {
    match c.state
    case Idle => c
    case PreparePlaying => c
    case Playing => c.(intent := true)
    case Pause => ResumeSpeaker(c.(state := Playing, intent := true), speaker)
    case _ => c.(resumeLater := true, intent := true)
  }

  /** A change of the audio track to one that can be played sets the open speaker up anew, and it runs from then
      on, whatever the state. */
  function TrackCmd(c: Control, speaker: bool, changed: bool): (r: Control)
    ensures r.intent == c.intent
  {
    if Open(c) && changed then ResumeSpeaker(c, speaker) else c
  }

  function SeekControl(c: Control, speaker: bool): (r: Control)
    ensures r.intent == c.intent
  {
    match c.state
    case Playing => PauseSpeaker(c.(state := PrepareSeeking, resumeLater := true), speaker)
    case Pause => c.(state := PrepareSeeking, resumeLater := false)
    case _ => c.(state := PrepareSeeking)
  }

  /** A seek request, with the playback at pos; the target is what the user has set last. During a seek that
      is still being prepared it is put off. */
  function SeekCmd(s: Sys, pos: int): Sys {
    var d := s.d;
    if !Session(d) || d.c.state.PrepareSeeking? then s
    else
      s.(d := d.(c := SeekControl(d.c, d.media.speaker), wait := d.wait.(backward := pos > d.seekPos),
                 seekStartPos := pos, eof := false),
         readQ := s.readQ + [Seek])
  }

  /** An abort, the end of the playback, or a shutdown: with a file open, the other threads are told to abort
      one after the other. */
  function AbortCmd(s: Sys, end: Ending): Sys {
    if Session(s.d) then s.(d := s.d.(mode := AwaitRead(end)), readQ := s.readQ + [AbortRead])
    else s.(d := s.d.(mode := if end.Shutdown? then Exited else Running, c := Stopped(s.d.c, Idle), wait := s.d.wait.(backward := false)))
  }

  function Stopped(c: Control, state: State): Control {
    Control(state, false, c.paused, c.intent)
  }

  // ---- Notices to the decode thread ----------------------------------------------------------------

  /** The cache is clear: the seek starts, and ignores some packets, one more for each frame thread. */
  function StartSeeking(d: Decode, threads: nat): Decode {
    d.(c := d.c.(state := Seeking), wait := Wait(d.wait.backward, SEEK_IGNORE_PACKETS + threads, SEEK_BACKWARD_TIMEOUT, 0))
  }

  /** Playback goes on or stays paused, as asked for. */
  function Restart(c: Control, speaker: bool): (r: Control)
    ensures r.intent == c.intent
  {
    if c.resumeLater then ResumeSpeaker(c.(state := Playing, resumeLater := false), speaker) else c.(state := Pause)
  }

  /** The converter has run out of pictures. */
  function Rebuffer(c: Control, speaker: bool): (r: Control)
    ensures r.intent == c.intent
  {
    if c.state.Playing? then PauseSpeaker(c.(state := Buffering, resumeLater := true), speaker)
    else c.(state := Buffering, resumeLater := false)
  }

  /** A notice while the decode thread is running. */
  function Notice(s: Sys, n: Note, drained: bool): Sys {
    var d := s.d;
    match n
    case ReadDone(eof) => s.(d := d.(readActive := false, eof := d.eof || eof))
    case SeekDone =>
      if !d.c.state.PrepareSeeking? then s
      else if d.media.tracks == 0 then s.(d := StartSeeking(d, 0))
      else s.(videoQ := s.videoQ + [ClearVideo])
    case Copied => s.(d := d.(waitingVideo := false))
    case Buffered => if d.c.state.Buffering? then s.(d := d.(c := Restart(d.c, d.media.speaker))) else s
    case Underrun =>
      if (!d.c.state.Playing? && !d.c.state.Pause?) || (d.eof && drained) then s
      else s.(d := d.(c := Rebuffer(d.c, d.media.speaker)))
    case Cleared => if d.c.state.PrepareSeeking? then s.(d := StartSeeking(d, d.media.threads)) else s
    case ReadAborted => s
    case ConvertAborted => s
    case VideoAborted => s
  }

  /** A notice while the decode thread waits for a thread to abort: all but the awaited one are dropped. */
  function Await(s: Sys, n: Note): Sys {
    match s.d.mode
    case AwaitRead(end) =>
      if n.ReadAborted? then s.(d := s.d.(mode := AwaitConvert(end)), convertQ := s.convertQ + [AbortConvert]) else s
    case AwaitConvert(end) =>
      if n.ConvertAborted? then s.(d := s.d.(mode := AwaitVideo(end)), videoQ := s.videoQ + [AbortVideo]) else s
    case AwaitVideo(end) => if n.VideoAborted? then s.(d := Closed(s.d, end)) else s
    case _ => s
  }

  /** All threads have aborted: the file is closed. */
  function Closed(d: Decode, end: Ending): Decode {
    d.(mode := if end.Shutdown? then Exited else Running, c := Stopped(d.c, if end.PlayNext? then PreparePlaying else Idle),
       wait := d.wait.(backward := false), media := d.media.(speaker := false))
  }

  // ---- Packets ---------------------------------------------------------------------------------------

  /** The decode thread handles packets in these states. */
  predicate Active(c: Control) {
    c.state.Playing? || c.state.Seeking? || c.state.Pause? || c.state.Buffering?
  }

  /** A seek looks at video packets, or at all if there are no normal videos. */
  predicate Counts(d: Decode, video: bool) {
    d.c.state.Seeking? && (video || !d.media.normal)
  }

  /** A backward seek waits until the playback is seen behind where it started; without normal videos, until
      the ignored packets are over. */
  function Jump(w: Wait, behind: bool): Wait {
    if w.waitCount == 0 && behind then w.(backward := false) else w
  }

  /** One packet less to ignore, or to wait; after that the wait is given up. */
  function Tick(w: Wait): Wait {
    if w.waitCount > 0 then Wait(w.backward, w.waitCount - 1, w.backwardTimeout, w.packets + 1)
    else if w.backwardTimeout > 0 then Wait(w.backward, w.waitCount, w.backwardTimeout - 1, w.packets + 1)
    else Wait(false, w.waitCount, w.backwardTimeout, w.packets + 1)
  }

  /** At the target, with the wait over, the seek is too. */
  function Arrive(c: Control, m: Media): (r: Control)
    ensures r.intent == c.intent
  {
    if m.normal then c.(state := Buffering) else Restart(c, m.speaker)
  }

  /** A packet the seek looks at, with the playback at pos. */
  function SeekPacket(d: Decode, pos: int): Decode {
    var w := Jump(d.wait, pos == 0 || pos < d.seekStartPos || !d.media.normal);
    d.(c := if w.backward || pos < d.seekPos then d.c else Arrive(d.c, d.media), wait := Tick(w))
  }

  /** One packet; a video packet may be passed on to the video decoder. */
  function Packet(s: Sys, video: bool, pos: int, passed: bool): Sys {
    var d := if Counts(s.d, video) then SeekPacket(s.d, pos) else s.d;
    if video && passed then s.(d := d.(waitingVideo := true), videoQ := s.videoQ + [DecodeFrame]) else s.(d := d)
  }

  // ---- Actions ---------------------------------------------------------------------------------------

  datatype Cmd = PlayRequest(found: bool, media: Media, buffer: bool) | PauseRequest | ResumeRequest
               | TrackRequest(changed: bool) | SeekRequest(pos: int) | AbortRequest(end: Ending)

  datatype Outcome = Full | Eof | Failed | Again

  datatype Action =
    | SetSeekPos(target: int)
    | Command(cmd: Cmd)
    | TakeNote(drained: bool)
    | ReadMore
    | NoMoreToBuffer
    | HandlePacket(video: bool, pos: int, passed: bool)
    | ReaderTakes | ReaderReads(outcome: Outcome) | ReaderInterrupted | ReaderSought | ReaderFlushes
    | VideoTakes | VideoCopies(skipped: bool) | VideoDecodes | VideoClears | VideoFlushes
    | ConverterTakes | ConverterClears | ConverterFlushes | FrameStarts | FrameDone | RunsOut | HasBuffered

  function Obey(s: Sys, cmd: Cmd): Sys {
    match cmd
    case PlayRequest(found, m, buffer) => if ValidMedia(m) then Play(s, found, m, buffer) else s
    case PauseRequest => s.(d := s.d.(c := PauseCmd(s.d.c, s.d.media.speaker)))
    case ResumeRequest => s.(d := s.d.(c := ResumeCmd(s.d.c, s.d.media.speaker)))
    case TrackRequest(changed) => s.(d := s.d.(c := TrackCmd(s.d.c, s.d.media.speaker, changed)))
    case SeekRequest(pos) => SeekCmd(s, pos)
    case AbortRequest(end) => AbortCmd(s, end)
  }

  /** The decode thread's steps; the target of a seek is set by the user interface at any time. */
  function DecodeStep(s: Sys, a: Action): Sys {
    match a
    case SetSeekPos(target) => s.(d := s.d.(seekPos := target))
    case Command(cmd) => if s.d.mode.Running? then Obey(s, cmd) else s
    case TakeNote(drained) =>
      if s.notes == [] || s.d.mode.Exited? then s
      else
        var rest := s.(notes := s.notes[1..]);
        if s.d.mode.Running? then Notice(rest, s.notes[0], drained) else Await(rest, s.notes[0])
    case ReadMore =>
      if s.d.mode.Running? && Active(s.d.c) && !s.d.readActive && !s.d.eof
      then s.(d := s.d.(readActive := true), readQ := s.readQ + [Read]) else s
    case NoMoreToBuffer =>
      if s.d.mode.Running? && s.d.c.state.Buffering? then s.(notes := s.notes + [Buffered]) else s
    case HandlePacket(video, pos, passed) =>
      if s.d.mode.Running? && Active(s.d.c) && !s.d.waitingVideo then Packet(s, video, pos, passed) else s
    case _ => s
  }

  /** The read-packet thread's steps. */
  function ReaderStep(s: Sys, a: Action): Sys {
    match a
    case ReaderTakes =>
      if !s.reader.ReaderIdle? || s.readQ == [] then s
      else
        var next := match s.readQ[0]
                    case Read => if Session(s.d) then Reading else ReaderIdle
                    case Seek => if Session(s.d) then SeekingFile else ReaderIdle
                    case AbortRead => ReaderAborting;
        s.(readQ := s.readQ[1..], reader := next)
    case ReaderReads(outcome) =>
      if !s.reader.Reading? || outcome.Again? then s
      else s.(reader := ReaderIdle, notes := s.notes + [ReadDone(outcome.Eof?)])
    case ReaderInterrupted =>
      if !s.reader.Reading? || (Seek !in s.readQ && AbortRead !in s.readQ) then s
      else s.(reader := ReaderIdle, notes := s.notes + [ReadDone(false)])
    case ReaderSought =>
      if !s.reader.SeekingFile? then s else s.(reader := ReaderIdle, notes := s.notes + [SeekDone])
    case ReaderFlushes =>
      if !s.reader.ReaderAborting? then s
      else s.(reader := ReaderIdle, readQ := [], notes := s.notes + [ReadAborted])
    case _ => s
  }

  /** The decode-video thread's steps. */
  function VideoStep(s: Sys, a: Action): Sys {
    match a
    case VideoTakes =>
      if !s.video.VideoIdle? || s.videoQ == [] then s
      else
        var next := match s.videoQ[0]
                    case DecodeFrame => if Session(s.d) then Copying else VideoIdle
                    case ClearVideo => if Session(s.d) then ClearingVideo else VideoIdle
                    case AbortVideo => VideoAborting;
        s.(videoQ := s.videoQ[1..], video := next)
    case VideoCopies(skipped) =>
      if !s.video.Copying? then s
      else s.(video := if skipped then VideoIdle else Decoding, notes := s.notes + [Copied])
    case VideoDecodes => if !s.video.Decoding? then s else s.(video := VideoIdle)
    case VideoClears =>
      if !s.video.ClearingVideo? then s else s.(video := VideoIdle, convertQ := s.convertQ + [ClearConvert])
    case VideoFlushes =>
      if !s.video.VideoAborting? then s else s.(video := VideoIdle, videoQ := [], notes := s.notes + [VideoAborted])
    case _ => s
  }

  /** The convert thread's steps. */
  function ConvertStep(s: Sys, a: Action): Sys {
    match a
    case ConverterTakes =>
      if !s.converter.ConverterIdle? || s.convertQ == [] then s
      else
        var usable := Session(s.d) && s.d.media.tracks > 0;
        var rest := s.(convertQ := s.convertQ[1..]);
        (match s.convertQ[0]
         case Convert => if usable then rest.(shouldConvert := true) else rest
         case ClearConvert => if usable then rest.(converter := ClearingConvert) else rest
         case AbortConvert => rest.(shouldConvert := false, converter := ConverterAborting))
    case ConverterClears =>
      if !s.converter.ClearingConvert? then s else s.(converter := ConverterIdle, notes := s.notes + [Cleared])
    case ConverterFlushes =>
      if !s.converter.ConverterAborting? then s
      else s.(converter := ConverterIdle, convertQ := [], notes := s.notes + [ConvertAborted])
    case FrameStarts =>
      if s.converter.ConverterIdle? && s.shouldConvert && Session(s.d) && !s.d.c.state.PrepareSeeking?
      then s.(converter := Converting) else s
    case FrameDone => if s.converter.Converting? then s.(converter := ConverterIdle) else s
    case RunsOut =>
      if s.converter.Converting? && Underrun !in s.notes then s.(converter := ConverterIdle, notes := s.notes + [Underrun]) else s
    case HasBuffered =>
      if s.converter.Converting? then s.(converter := ConverterIdle, notes := s.notes + [Buffered]) else s
    case _ => s
  }

  /** One step of one thread. */
  function Step(s: Sys, a: Action): Sys {
    match a
    case SetSeekPos(_) => DecodeStep(s, a)
    case Command(_) => DecodeStep(s, a)
    case TakeNote(_) => DecodeStep(s, a)
    case ReadMore => DecodeStep(s, a)
    case NoMoreToBuffer => DecodeStep(s, a)
    case HandlePacket(_, _, _) => DecodeStep(s, a)
    case ReaderTakes => ReaderStep(s, a)
    case ReaderReads(_) => ReaderStep(s, a)
    case ReaderInterrupted => ReaderStep(s, a)
    case ReaderSought => ReaderStep(s, a)
    case ReaderFlushes => ReaderStep(s, a)
    case VideoTakes => VideoStep(s, a)
    case VideoCopies(_) => VideoStep(s, a)
    case VideoDecodes => VideoStep(s, a)
    case VideoClears => VideoStep(s, a)
    case VideoFlushes => VideoStep(s, a)
    case _ => ConvertStep(s, a)
  }

  function Run(actions: seq<Action>): Sys {
    if actions == [] then START else Step(Run(actions[..|actions| - 1]), actions[|actions| - 1])
  }
}
