/** The audio recorder of grecord.py as a state machine over plain values.
    The GStreamer pipelines are reduced to their states, the transcode timer
    and bus-watch handler to the ids the main loop hands out, the position
    query to its two answers, and output.wav to its size (`None` when the
    file does not exist). Each transcode pipeline that `stop_recording_audio`
    builds is named by an id, so that a bus watch can stay bound to an
    older pipeline after `_audioline` has moved on. */
module Recorder {
  import opened Outcomes

  datatype GstState = Null | Ready | Paused | Playing

  /** `gst.CLOCK_TIME_NONE`, what a failed position or duration query gives. */
  const ClockTimeNone: int := 0xFFFF_FFFF_FFFF_FFFF

  datatype BusMessage = Eos | Error | Other

  datatype Recorder = Recorder(
    pipeline: GstState,           // state of the "Record" pipeline
    audiobinAttached: bool,       // is the capture bin a child of it?
    playing: bool,                // `_playing`
    transcodeId: Option<nat>,     // `_transcode_id`, the polling timer
    transcodeHandler: Option<nat>,// `_audio_transcode_handler`
    audiopos: int,                // `_audiopos`, position seen at the last poll
    audioline: Option<nat>,       // `_audioline`: id of the latest transcode pipeline
    lines: map<nat, GstState>,    // state of every transcode pipeline built, by id
    wav: Option<nat>,             // size of output.wav, `None` if absent
    eosArmed: bool)               // is `_eos_cb` set?

  /** The state after the constructor: an empty pipeline in NULL, the
      capture bin built but not added, no transcode job, the `_eos_cb`
      unset; `wav` is whatever output.wav already exists. */
  function Init(wav: Option<nat>): (r: Recorder)
    ensures Valid(r) && r.wav == wav
    ensures r.pipeline == Null && !r.audiobinAttached && !r.playing && !r.eosArmed
    ensures r.transcodeId.None? && r.audioline.None? && r.lines == map[]
  {
    Recorder(Null, false, false, None, None, 0, None, map[], wav, false)
  }

  /** The transcode timer and its bus handler are set and cleared together,
      and `_audioline` names a pipeline that was built. */
  predicate Valid(r: Recorder)
  {
    (r.transcodeId.Some? <==> r.transcodeHandler.Some?) &&
    (r.transcodeId.Some? ==> r.audioline.Some?) &&
    (r.audioline.Some? ==> r.audioline.value in r.lines)
  }

  /** A transcode job is running: timer, handler and pipeline all exist. */
  predicate Running(r: Recorder)
  {
    r.transcodeHandler.Some? && r.transcodeId.Some? && r.audioline.Some?
  }

  /** A call's outcome: the state afterwards and the exception that escaped,
      if any (the state then holds what was done before the raise). */
  datatype Run = Run(rec: Recorder, raised: Option<PyError>)

  /** `play()`: a no-op when the pipeline is already PLAYING; otherwise it
      is set PLAYING and `_playing` becomes true. */
  function Play(r: Recorder): (r': Recorder)
    ensures r'.pipeline == Playing
    ensures r.pipeline == Playing ==> r' == r
    ensures r.pipeline != Playing ==> r'.playing
    ensures r'.(pipeline := r.pipeline, playing := r.playing) == r
  {
    if r.pipeline == Playing then r else r.(pipeline := Playing, playing := true)
  }

  /** `record_audio()`: stop the pipeline, add the capture bin, play. Adding
      a bin that already has a parent raises, leaving the pipeline NULL. */
  function RecordAudio(r: Recorder): (out: Run)
    ensures out.raised.None? <==> !r.audiobinAttached
    ensures out.raised.None? ==> out.rec.audiobinAttached && out.rec.pipeline == Playing && out.rec.playing
    ensures out.raised.Some? ==> out.raised.value == AddError && out.rec.pipeline == Null
    ensures out.rec.transcodeId == r.transcodeId && out.rec.transcodeHandler == r.transcodeHandler
    ensures out.rec.audioline == r.audioline && out.rec.wav == r.wav && out.rec.audiopos == r.audiopos
  {
    var stopped := r.(pipeline := Null);
    if stopped.audiobinAttached then Run(stopped, Some(AddError))
    else Run(Play(stopped.(audiobinAttached := true)), None)
  }

  /** Is there a capture file worth transcoding? `size` is the size of
      output.wav, `None` when it does not exist. */
  predicate Captured(size: Option<nat>)
  {
    size.Some? && size.value > 0
  }

  /** `stop_recording_audio()`: stop the pipeline, remove the capture bin and
      play again. While it played, the capture bin's filesink wrote
      output.wav; `captured` is what the existence and size test then finds.
      Unless that file is missing or empty, a new transcode pipeline `line`
      becomes `_audioline` and plays, with a fresh polling timer (`timer`)
      and bus handler (`handler`), and the remembered position is reset to
      0. A job still running is not stopped: its ids are overwritten, and
      its bus watch stays connected to its own pipeline. */
  function StopRecordingAudio(r: Recorder, captured: Option<nat>, timer: nat, handler: nat, line: nat): (out: Run)
    ensures out.raised.None? <==> r.audiobinAttached
    ensures out.raised.Some? ==> out.raised.value == RemoveError && out.rec == r.(pipeline := Null)
    ensures out.raised.None? ==> !out.rec.audiobinAttached && out.rec.pipeline == Playing && out.rec.wav == captured
    ensures out.raised.None? && !Captured(captured) ==>
      out.rec.transcodeId == r.transcodeId && out.rec.transcodeHandler == r.transcodeHandler &&
      out.rec.audioline == r.audioline && out.rec.lines == r.lines && out.rec.audiopos == r.audiopos
    ensures out.raised.None? && Captured(captured) ==>
      out.rec.transcodeId == Some(timer) && out.rec.transcodeHandler == Some(handler) &&
      out.rec.audioline == Some(line) && out.rec.lines == r.lines[line := Playing] &&
      out.rec.audiopos == 0 && Running(out.rec)
    ensures out.rec.eosArmed == r.eosArmed
    ensures Valid(r) ==> Valid(out.rec)
  {
    var stopped := r.(pipeline := Null);
    if !stopped.audiobinAttached then Run(stopped, Some(RemoveError))
    else
      var resumed := Play(stopped.(audiobinAttached := false, wav := captured));
      if !Captured(captured) then Run(resumed, None)
      else
        Run(resumed.(audioline := Some(line), lines := resumed.lines[line := Playing], transcodeHandler := Some(handler),
                     transcodeId := Some(timer), audiopos := 0), None)
  }

  /** `_clean_up_transcoding_pipeline(pipe)`: remove the handler, then the
      timer, stop `pipe` and delete output.wav. Each step can raise and stop
      the rest: removing a handler or timer that is `None` raises
      `TypeError`, a `pipe` that is `None` `AttributeError`, and deleting a
      file that is not there `OSError`. The handler and timer removed are
      the latest ones, whichever pipeline `pipe` is. */
  function Cleanup(r: Recorder, pipe: Option<nat>): (out: Run)
    ensures r.transcodeHandler.None? ==> out == Run(r, Some(TypeError))
    ensures r.transcodeHandler.Some? && r.transcodeId.None? ==>
      out == Run(r.(transcodeHandler := None), Some(TypeError))
    ensures r.transcodeHandler.Some? && r.transcodeId.Some? && pipe.None? ==>
      out == Run(r.(transcodeHandler := None, transcodeId := None), Some(AttributeError))
    ensures r.transcodeHandler.Some? && r.transcodeId.Some? && pipe.Some? ==>
      out.rec.transcodeId.None? && out.rec.transcodeHandler.None? &&
      out.rec.lines == r.lines[pipe.value := Null] && out.rec.wav.None? &&
      (out.raised.None? <==> r.wav.Some?) && (out.raised.Some? ==> out.raised.value == OSError) &&
      out.rec.(transcodeId := r.transcodeId, transcodeHandler := r.transcodeHandler,
               lines := r.lines, wav := r.wav) == r
    ensures Valid(r) ==> Valid(out.rec)
  {
    if r.transcodeHandler.None? then Run(r, Some(TypeError))
    else
      var unhooked := r.(transcodeHandler := None);
      if unhooked.transcodeId.None? then Run(unhooked, Some(TypeError))
      else
        var untimed := unhooked.(transcodeId := None);
        if pipe.None? then Run(untimed, Some(AttributeError))
        else
          var stopped := untimed.(lines := untimed.lines[pipe.value := Null]);
          if stopped.wav.None? then Run(stopped, Some(OSError))
          else Run(stopped.(wav := None), None)
  }

  /** The answers of one position/duration query. */
  datatype Query = Query(position: int, duration: int)

  /** `_query_position`, abstracted: the pipeline's answers are inputs, and
      a query that fails reads as `CLOCK_TIME_NONE`. */
  function QueryPosition(position: Option<nat>, duration: Option<nat>): (q: Query)
    ensures position.Some? ==> q.position == position.value
    ensures position.None? ==> q.position == ClockTimeNone
    ensures duration.Some? ==> q.duration == duration.value
    ensures duration.None? ==> q.duration == ClockTimeNone
  {
    Query(if position.Some? then position.value else ClockTimeNone,
          if duration.Some? then duration.value else ClockTimeNone)
  }

  /** One call of `transcoding_complete`: its answer, the state after, and
      an escaped exception (the answer is then meaningless and false). */
  datatype Poll = Poll(done: bool, rec: Recorder, raised: Option<PyError>)

  /** Does this poll of a running job decide that the job is over: the
      position equals the duration, or has not moved since the last poll? */
  predicate Ends(r: Recorder, q: Query)
  {
    r.transcodeId.Some? && (q.position == q.duration || q.position == r.audiopos)
  }

  /** `transcoding_complete()` with the answers `q` of querying `_audioline`.
      Without a job it answers true at once. A poll that ends the job cleans
      up `_audioline` and answers true unless the clean-up raised; any other
      poll remembers the position and answers false. */
  function TranscodingComplete(r: Recorder, q: Query): (p: Poll)
    ensures r.transcodeId.None? ==> p == Poll(true, r, None)
    ensures Ends(r, q) ==>
      p.rec == Cleanup(r, r.audioline).rec && p.raised == Cleanup(r, r.audioline).raised && (p.done <==> p.raised.None?)
    ensures Ends(r, q) && Running(r) ==> p.rec.transcodeId.None? && p.rec.wav.None? && (p.done <==> r.wav.Some?)
    ensures r.transcodeId.Some? && !Ends(r, q) ==> p == Poll(false, r.(audiopos := q.position), None)
    ensures Valid(r) ==> Valid(p.rec)
  {
    if r.transcodeId.None? then Poll(true, r, None)
    else if q.position == q.duration || q.position == r.audiopos then
      var c := Cleanup(r, r.audioline);
      Poll(c.raised.None?, c.rec, c.raised)
    else Poll(false, r.(audiopos := q.position), None)
  }

  /** The transcode bus watch (`_onMuxedAudioMessageCb`) of pipeline `pipe`,
      the one it was connected to: any message but end-of-stream keeps the
      watch; end-of-stream cleans up `pipe` and removes the watch. */
  datatype Watch = Watch(keep: bool, rec: Recorder, raised: Option<PyError>)

  function OnMuxedAudioMessage(r: Recorder, pipe: nat, m: BusMessage): (w: Watch)
    ensures m != Eos ==> w == Watch(true, r, None)
    ensures m == Eos ==> !w.keep && w.rec == Cleanup(r, Some(pipe)).rec && w.raised == Cleanup(r, Some(pipe)).raised
    ensures m == Eos && r.transcodeHandler.Some? && r.transcodeId.Some? ==>
      w.rec.transcodeId.None? && w.rec.transcodeHandler.None? && w.rec.wav.None? &&
      w.rec.lines == r.lines[pipe := Null] && w.rec.audioline == r.audioline &&
      (w.raised.None? <==> r.wav.Some?)
    ensures m == Eos && r.transcodeHandler.None? ==> w == Watch(false, r, Some(TypeError))
  {
    if m != Eos then Watch(true, r, None)
    else
      var c := Cleanup(r, Some(pipe));
      Watch(false, c.rec, c.raised)
  }

  /** `_bus_message_handler` on the record pipeline: end-of-stream fires the
      one-shot `_eos_cb`, if set, and clears it; other messages do nothing.
      `fired` says whether the callback ran. */
  datatype Dispatch = Dispatch(rec: Recorder, fired: bool)

  function BusMessageHandler(r: Recorder, m: BusMessage): (d: Dispatch)
    ensures d.fired <==> m == Eos && r.eosArmed
    ensures d.rec == r.(eosArmed := r.eosArmed && !d.fired)
  {
    if m == Eos && r.eosArmed then Dispatch(r.(eosArmed := false), true)
    else Dispatch(r, false)
  }

  /** The callback fires at most once: a second end-of-stream finds it
      cleared. */
  lemma EosCallbackOnce(r: Recorder)
    ensures !BusMessageHandler(BusMessageHandler(r, Eos).rec, Eos).fired
  {
  }

  /** After `record_audio` on a pipeline without the capture bin, the bin is
      attached and the pipeline plays; stopping then detaches it again. */
  lemma RecordThenStop(r: Recorder, captured: Option<nat>, timer: nat, handler: nat, line: nat)
    requires !r.audiobinAttached
    ensures RecordAudio(r).raised.None?
    ensures StopRecordingAudio(RecordAudio(r).rec, captured, timer, handler, line).raised.None?
    ensures !StopRecordingAudio(RecordAudio(r).rec, captured, timer, handler, line).rec.audiobinAttached
  {
  }

  /** A stop that finds a usable capture leaves the remembered position at
      0, so a first poll that also reports position 0 already counts as
      done and deletes output.wav. */
  lemma FirstPollAtZeroCompletes(r: Recorder, captured: Option<nat>, timer: nat, handler: nat, line: nat, duration: int)
    requires r.audiobinAttached && Captured(captured)
    ensures TranscodingComplete(StopRecordingAudio(r, captured, timer, handler, line).rec, Query(0, duration)).done
    ensures TranscodingComplete(StopRecordingAudio(r, captured, timer, handler, line).rec, Query(0, duration)).rec.wav.None?
  {
  }

  /** Each recording is transcoded in turn: after a first job has finished
      and deleted its output.wav, a second record/stop cycle that captured
      audio starts a new job on the new file. */
  lemma SecondRecordingTranscodes(wav: Option<nat>, first: nat, second: nat, t1: nat, h1: nat, l1: nat, t2: nat, h2: nat, l2: nat, duration: int)
    requires first > 0 && second > 0
    ensures var r1 := StopRecordingAudio(RecordAudio(Init(wav)).rec, Some(first), t1, h1, l1).rec;
      var r2 := TranscodingComplete(r1, Query(0, duration)).rec;
      var r3 := StopRecordingAudio(RecordAudio(r2).rec, Some(second), t2, h2, l2).rec;
      r2.transcodeId.None? && r2.wav.None? && r3.transcodeId == Some(t2) && r3.wav == Some(second)
  {
  }

  /** A second stop while the first job still runs overwrites its ids, but
      the first pipeline's bus watch stays connected. Its end-of-stream then
      removes the second job's handler and timer, stops the first pipeline
      and deletes output.wav, leaving the second pipeline playing with no
      job: every later poll answers true at once, and the second
      pipeline's own end-of-stream raises `TypeError`. */
  lemma StaleWatchEndsNewJob(wav: Option<nat>, first: nat, second: nat, t1: nat, h1: nat, l1: nat,
                             t2: nat, h2: nat, l2: nat, q: Query)
    requires first > 0 && second > 0 && l1 != l2
    ensures var r1 := StopRecordingAudio(RecordAudio(Init(wav)).rec, Some(first), t1, h1, l1).rec;
      var r2 := StopRecordingAudio(RecordAudio(r1).rec, Some(second), t2, h2, l2).rec;
      var w := OnMuxedAudioMessage(r2, l1, Eos);
      Running(r1) && w.raised.None? && w.rec.audioline == Some(l2) &&
      w.rec.lines[l1] == Null && w.rec.lines[l2] == Playing &&
      w.rec.transcodeId.None? && w.rec.wav.None? &&
      TranscodingComplete(w.rec, q) == Poll(true, w.rec, None) &&
      OnMuxedAudioMessage(w.rec, l2, Eos).raised == Some(TypeError)
  {
  }

  /** A poll with a timer and handler but no `_audioline` (outside `Valid`)
      reaches the clean-up: both queries on `None` fail inside their
      `try`, so they read `CLOCK_TIME_NONE` and count as finished, and the
      clean-up removes the handler and timer before `None.set_state`
      raises `AttributeError`. */
  lemma NoPipelinePollRaises(r: Recorder)
    requires r.transcodeHandler.Some? && r.transcodeId.Some? && r.audioline.None?
    ensures TranscodingComplete(r, QueryPosition(None, None)) ==
      Poll(false, r.(transcodeHandler := None, transcodeId := None), Some(AttributeError))
  {
  }

  /** If both queries fail they both read `CLOCK_TIME_NONE`, which counts as
      "position equals duration": the job is declared done. */
  lemma FailedQueriesComplete(r: Recorder)
    requires Running(r) && r.wav.Some?
    ensures TranscodingComplete(r, QueryPosition(None, None)).done
  {
  }

  /** How many polls of the sequence call `_clean_up_transcoding_pipeline`,
      whether or not the clean-up then raises. */
  function CleanupCalls(r: Recorder, qs: seq<Query>): nat
    decreases |qs|
  {
    if |qs| == 0 then 0
    else (if Ends(r, qs[0]) then 1 else 0) + CleanupCalls(TranscodingComplete(r, qs[0]).rec, qs[1..])
  }

  /** Once no job is left, polling never cleans up again. */
  lemma {:induction false} IdleStaysIdle(r: Recorder, qs: seq<Query>)
    requires r.transcodeId.None?
    ensures CleanupCalls(r, qs) == 0
    decreases |qs|
  {
    if |qs| > 0 {
      IdleStaysIdle(r, qs[1..]);
    }
  }

  /** With the timer and handler in step, whatever the stream reports, a
      run of polls cleans up at most once: the cleaning poll also drops the
      job. */
  lemma {:induction false} AtMostOneCleanup(r: Recorder, qs: seq<Query>)
    requires Valid(r)
    ensures CleanupCalls(r, qs) <= 1
    decreases |qs|
  {
    if |qs| > 0 {
      var p := TranscodingComplete(r, qs[0]);
      if r.transcodeId.None? {
        IdleStaysIdle(r, qs[1..]);
      } else if Ends(r, qs[0]) {
        IdleStaysIdle(p.rec, qs[1..]);
      } else {
        AtMostOneCleanup(p.rec, qs[1..]);
      }
    }
  }

  /** The pairing is needed: a timer without a handler makes every clean-up
      raise `TypeError` before it drops the timer, so each later poll tries
      again. */
  lemma UnpairedTimerRetriesCleanup()
    ensures var r := Recorder(Null, false, false, Some(1), None, 0, Some(0), map[0 := Playing], Some(5), false);
      !Valid(r) && CleanupCalls(r, [Query(0, 9), Query(0, 9)]) == 2
  {
    var r := Recorder(Null, false, false, Some(1), None, 0, Some(0), map[0 := Playing], Some(5), false);
    var qs := [Query(0, 9), Query(0, 9)];
    assert TranscodingComplete(r, qs[0]).rec == r;
    assert qs[1..] == [Query(0, 9)];
    assert qs[1..][1..] == [];
  }

  /** The stall heuristic: two consecutive polls at the same position end a
      running job, and over any longer run of polls the clean-up happens
      exactly once. */
  lemma StallCleansUpOnce(r: Recorder, qs: seq<Query>)
    requires Valid(r) && r.transcodeId.Some?
    requires |qs| >= 2 && qs[0].position == qs[1].position
    ensures CleanupCalls(r, qs) == 1
  {
    var p := TranscodingComplete(r, qs[0]);
    if Ends(r, qs[0]) {
      IdleStaysIdle(p.rec, qs[1..]);
    } else {
      var p2 := TranscodingComplete(p.rec, qs[1]);
      assert Ends(p.rec, qs[1]);
      IdleStaysIdle(p2.rec, qs[2..]);
      assert qs[1..][1..] == qs[2..];
    }
  }

  /** Every operation keeps the timer and the handler in step. */
  lemma OperationsKeepValid(r: Recorder, captured: Option<nat>, timer: nat, handler: nat, line: nat, q: Query, pipe: nat, m: BusMessage)
    requires Valid(r)
    ensures Valid(RecordAudio(r).rec)
    ensures Valid(StopRecordingAudio(r, captured, timer, handler, line).rec)
    ensures Valid(Cleanup(r, r.audioline).rec)
    ensures Valid(TranscodingComplete(r, q).rec)
    ensures Valid(OnMuxedAudioMessage(r, pipe, m).rec)
    ensures Valid(BusMessageHandler(r, m).rec)
  {
  }
}
