/**
 * The recording session of the player and its playback flags. A session
 * taps the stream, turns each block of float samples into 16-bit PCM, feeds
 * it to an MP3 encoder and keeps the non-empty encoded chunks in arrival
 * order; stopping flushes the encoder and hands out the concatenated bytes
 * as one file. A once-per-second monitor applies the active schedule to the
 * session.
 */
module Recorder {
  import opened Optional
  import opened Text
  import opened Stations
  import opened Scheduler

  /** A signed byte of an encoded chunk (`Int8Array`). */
  newtype int8 = x: int | -128 <= x < 128

  type Bytes = seq<int8>

  /** One block of 16-bit samples, left and right channel. */
  datatype Block = Block(left: seq<int>, right: seq<int>)

  /**
   * The MP3 library as the player sees it: what `encodeBuffer` returns
   * depends on the blocks fed before and on the new one; what `flush`
   * returns depends on all blocks fed.
   */
  datatype Lame = Lame(encode: (seq<Block>, Block) -> Bytes, flush: seq<Block> -> Bytes)

  /** An encoder instance: the library, its settings and the blocks fed to it so far. */
  datatype Encoder = Encoder(lame: Lame, channels: nat, sampleRate: nat, kbps: nat, fed: seq<Block>)

  /** The three qualities offered, in kbit/s; the middle one is the default. */
  const Qualities: seq<nat> := [128, 192, 320]
  const DefaultKbps: nat := 192

  function Concat(chunks: seq<Bytes>): Bytes {
    if chunks == [] then [] else Concat(chunks[..|chunks| - 1]) + chunks[|chunks| - 1]
  }

  lemma ConcatSnoc(chunks: seq<Bytes>, c: Bytes)
    ensures Concat(chunks + [c]) == Concat(chunks) + c
  {
    assert (chunks + [c])[..|chunks|] == chunks;
  }

  /** What each `encodeBuffer` call returned, in call order. */
  function Outputs(lame: Lame, fed: seq<Block>): (r: seq<Bytes>)
    ensures |r| == |fed|
  {
    if fed == [] then []
    else Outputs(lame, fed[..|fed| - 1]) + [lame.encode(fed[..|fed| - 1], fed[|fed| - 1])]
  }

  /** Everything an encoder produced so far, in order. */
  function Produced(e: Encoder): Bytes {
    Concat(Outputs(e.lame, e.fed))
  }

  /** Feeding one more block adds that call's output at the end of what was produced. */
  lemma ProducedSnoc(e: Encoder, b: Block)
    ensures Produced(e.(fed := e.fed + [b])) == Produced(e) + e.lame.encode(e.fed, b)
  {
    var fed := e.fed + [b];
    assert fed[..|fed| - 1] == e.fed;
    ConcatSnoc(Outputs(e.lame, e.fed), e.lame.encode(e.fed, b));
  }

  // ---------------------------------------------------------------------------
  // PCM conversion

  /** Conversion toward zero, as storing into an `Int16Array` does. */
  function Truncate(r: real): (v: int)
    ensures r >= 0.0 ==> v as real <= r < v as real + 1.0
    ensures r < 0.0 ==> v as real - 1.0 < r <= v as real
  {
    if r >= 0.0 then r.Floor else -((-r).Floor)
  }

  /** `Math.max(-1, Math.min(1, x)) * 0x7FFF`, stored as a 16-bit integer. */
  function Sample(x: real): (v: int)
    ensures -32767 <= v <= 32767
    ensures x >= 1.0 ==> v == 32767
    ensures x <= -1.0 ==> v == -32767
    ensures (x >= 0.0 ==> v >= 0) && (x <= 0.0 ==> v <= 0)
  {
    var c := if x < -1.0 then -1.0 else if x > 1.0 then 1.0 else x;
    Truncate(c * 32767.0)
  }

  /** A louder input never gives a smaller sample. */
  lemma SampleMonotone(x: real, y: real)
    requires x <= y
    ensures Sample(x) <= Sample(y)
  {
    var cx := if x < -1.0 then -1.0 else if x > 1.0 then 1.0 else x;
    var cy := if y < -1.0 then -1.0 else if y > 1.0 then 1.0 else y;
    assert cx <= cy;
    TruncateMonotone(cx * 32767.0, cy * 32767.0);
  }

  lemma TruncateMonotone(r: real, s: real)
    requires r <= s
    ensures Truncate(r) <= Truncate(s)
  {
    if r >= 0.0 {
      assert r.Floor <= s.Floor;
    } else if s < 0.0 {
      assert (-s).Floor <= (-r).Floor;
    }
  }

  /** The conversion loop: one channel's float samples into a fresh `Int16Array`. */
  method ToPcm(samples: seq<real>) returns (pcm: array<int>)
    ensures fresh(pcm)
    ensures pcm.Length == |samples|
    ensures forall i :: 0 <= i < |samples| ==> pcm[i] == Sample(samples[i])
  {
    pcm := new int[|samples|];
    var i := 0;
    while i < |samples|
      invariant 0 <= i <= |samples|
      invariant forall k :: 0 <= k < i ==> pcm[k] == Sample(samples[k])
    {
      pcm[i] := Sample(samples[i]);
      i := i + 1;
    }
  }

  /** The block one processor callback feeds: both channels converted sample by sample. */
  function PcmBlock(left: seq<real>, right: seq<real>): (b: Block)
    ensures |b.left| == |left| && |b.right| == |right|
    ensures forall i :: 0 <= i < |left| ==> b.left[i] == Sample(left[i])
    ensures forall i :: 0 <= i < |right| ==> b.right[i] == Sample(right[i])
  {
    Block(seq(|left|, i requires 0 <= i < |left| => Sample(left[i])),
          seq(|right|, i requires 0 <= i < |right| => Sample(right[i])))
  }

  /** The name of a recording: the station name (or `Radio`), then the stamp, then `.mp3`. */
  function RecordingName(stationName: Option<string>, c: Clock): (r: string)
    ensures |r| > 10
    ensures stationName.Some? && stationName.value != "" ==> |r| > |stationName.value| + 1 && r[..|stationName.value| + 1] == stationName.value + "-"
    ensures stationName.None? || stationName.value == "" ==> r[..6] == "Radio-"
    ensures |r| > 4 && r[|r| - 4..] == ".mp3"
  {
    (if stationName.Some? && stationName.value != "" then stationName.value else "Radio")
    + "-" + Stamp(c) + ".mp3"
  }

  /** Two recordings of the same station made at different seconds get different names. */
  lemma RecordingNameInjective(stationName: Option<string>, c: Clock, d: Clock)
    requires ValidClock(c) && ValidClock(d)
    requires RecordingName(stationName, c) == RecordingName(stationName, d)
    ensures c == d
  {
    var name := if stationName.Some? && stationName.value != "" then stationName.value else "Radio";
    Unglue(name + "-", Stamp(c), ".mp3", name + "-", Stamp(d), ".mp3");
    StampInjective(c, d);
  }

  // ---------------------------------------------------------------------------
  // Session

  datatype StartOutcome = Ignored | PlayRequested | Started

  /** A finished recording as it is downloaded: its file name and its bytes. */
  datatype Recording = Recording(fileName: string, bytes: Bytes)

  /** Everything a session holds except the active schedule. */
  datatype SessionState = SessionState(
    recording: bool,
    stopping: bool,
    chunks: seq<Bytes>,
    elapsed: nat,
    encoder: Option<Encoder>,
    contextReady: bool,
    taps: nat,
    tapHeld: bool,
    tickers: nat,
    tickerHeld: bool)

  /**
   * The state a start leaves behind: the audio context ready, a fresh
   * two-channel encoder, no chunk, recording on, one more tap and one more
   * interval, both held. The elapsed seconds are not reset.
   */
  function StartedFrom(st: SessionState, sampleRate: nat, kbps: nat, lame: Lame): (r: SessionState)
    ensures r.recording && r.chunks == [] && r.contextReady && r.tapHeld && r.tickerHeld
    ensures r.taps == st.taps + 1 && r.tickers == st.tickers + 1
    ensures r.elapsed == st.elapsed && r.stopping == st.stopping
    ensures r.encoder == Some(Encoder(lame, 2, sampleRate, kbps, []))
  {
    st.(recording := true, chunks := [], encoder := Some(Encoder(lame, 2, sampleRate, kbps, [])),
        contextReady := true, taps := st.taps + 1, tapHeld := true, tickers := st.tickers + 1, tickerHeld := true)
  }

  /**
   * The state a stop leaves behind: recording off, the held interval and
   * tap released, no chunk, and the elapsed seconds reset when there was
   * something to save.
   */
  function StoppedFrom(st: SessionState): (r: SessionState)
    ensures !r.recording && r.chunks == [] && !r.tapHeld && !r.tickerHeld
    ensures r.taps == st.taps - (if st.tapHeld && st.taps > 0 then 1 else 0)
    ensures r.tickers == st.tickers - (if st.tickerHeld && st.tickers > 0 then 1 else 0)
    ensures r.elapsed == (if st.chunks == [] then st.elapsed else 0)
    ensures r.encoder == st.encoder && r.contextReady == st.contextReady && r.stopping == st.stopping
  {
    st.(recording := false, chunks := [],
        taps := if st.tapHeld && st.taps > 0 then st.taps - 1 else st.taps, tapHeld := false,
        tickers := if st.tickerHeld && st.tickers > 0 then st.tickers - 1 else st.tickers, tickerHeld := false,
        elapsed := if st.chunks == [] then st.elapsed else 0)
  }

  /**
   * The first half of a stop: the stopping flag is up, recording is off and
   * the held interval and tap are released; chunks and encoder are untouched.
   */
  function ReleasedFrom(st: SessionState): (r: SessionState)
    ensures r.stopping && !r.recording && !r.tapHeld && !r.tickerHeld
    ensures r.taps == st.taps - (if st.tapHeld && st.taps > 0 then 1 else 0)
    ensures r.tickers == st.tickers - (if st.tickerHeld && st.tickers > 0 then 1 else 0)
    ensures r.chunks == st.chunks && r.elapsed == st.elapsed && r.encoder == st.encoder
    ensures r.contextReady == st.contextReady
  {
    st.(stopping := true, recording := false,
        taps := if st.tapHeld && st.taps > 0 then st.taps - 1 else st.taps, tapHeld := false,
        tickers := if st.tickerHeld && st.tickers > 0 then st.tickers - 1 else st.tickers, tickerHeld := false)
  }

  /** Held handles are live, and a live tap or a kept chunk has an encoder. */
  predicate WiredState(st: SessionState) {
    && (st.tapHeld ==> st.taps > 0)
    && (st.tickerHeld ==> st.tickers > 0)
    && (st.taps > 0 ==> st.encoder.Some?)
    && (st.chunks != [] ==> st.encoder.Some?)
  }

  /**
   * At most one tap and one interval, both exactly while recording; no chunk
   * kept while idle; and while recording, the chunks hold exactly what the
   * encoder produced.
   */
  predicate ValidState(st: SessionState) {
    && WiredState(st)
    && !st.stopping
    && st.taps == (if st.recording then 1 else 0) && st.tapHeld == st.recording
    && st.tickers == (if st.recording then 1 else 0) && st.tickerHeld == st.recording
    && (!st.recording ==> st.chunks == [])
    && (st.recording ==> st.encoder.Some? && Concat(st.chunks) == Produced(st.encoder.value))
  }

  /** Starting from idle keeps a session valid: the fresh encoder has produced nothing and there is no chunk. */
  lemma StartKeepsValid(st: SessionState, sampleRate: nat, kbps: nat, lame: Lame)
    requires ValidState(st) && !st.recording
    ensures ValidState(StartedFrom(st, sampleRate, kbps, lame))
  {
    assert Produced(Encoder(lame, 2, sampleRate, kbps, [])) == [];
  }

  /** Starting again while recording, as `startRecording` allows, breaks validity: a second tap and interval are live. */
  lemma RestartBreaksValid(st: SessionState, sampleRate: nat, kbps: nat, lame: Lame)
    requires ValidState(st) && st.recording
    ensures var r := StartedFrom(st, sampleRate, kbps, lame);
      !ValidState(r) && r.taps == 2 && r.tickers == 2
  {
  }

  /**
   * Stopping after an unguarded restart, as the timer's monitor does, lets go
   * of one tap and one interval only: the other pair stays live on an idle
   * session.
   */
  lemma StopAfterRestartLeaks(st: SessionState, sampleRate: nat, kbps: nat, lame: Lame)
    requires ValidState(st) && st.recording
    ensures var r := StoppedFrom(StartedFrom(st, sampleRate, kbps, lame));
      && WiredState(r) && !r.recording && r.taps == 1 && r.tickers == 1
      && !r.tapHeld && !r.tickerHeld
  {
    StartKeepsWired(st, sampleRate, kbps, lame);
    StopKeepsValid(StartedFrom(st, sampleRate, kbps, lame));
  }

  /** A start never breaks the wiring. */
  lemma StartKeepsWired(st: SessionState, sampleRate: nat, kbps: nat, lame: Lame)
    ensures WiredState(StartedFrom(st, sampleRate, kbps, lame))
  {
  }

  /**
   * A stop is a release followed by a save, with the stopping flag lowered
   * again at the end; the release keeps the wiring the save needs.
   */
  lemma ReleaseThenSave(st: SessionState)
    requires !st.stopping
    ensures WiredState(st) ==> WiredState(ReleasedFrom(st))
    ensures SavedFrom(ReleasedFrom(st)).(stopping := false) == StoppedFrom(st)
  {
  }

  /** Stopping keeps a session valid, and keeps the wiring of any session. */
  lemma StopKeepsValid(st: SessionState)
    ensures WiredState(st) ==> WiredState(StoppedFrom(st))
    ensures ValidState(st) ==> ValidState(StoppedFrom(st)) && StoppedFrom(st).taps == 0 && StoppedFrom(st).tickers == 0
  {
  }

  /**
   * The state after one block is fed: the block is added to what the encoder
   * was fed, and what `encodeBuffer` returns for it is kept as a last chunk
   * when it is not empty.
   */
  function FedFrom(st: SessionState, block: Block): (r: SessionState)
    requires st.encoder.Some?
    ensures r.encoder == Some(st.encoder.value.(fed := st.encoder.value.fed + [block]))
    ensures var out := st.encoder.value.lame.encode(st.encoder.value.fed, block);
      r.chunks == st.chunks + (if |out| > 0 then [out] else [])
    ensures r.(encoder := st.encoder, chunks := st.chunks) == st
  {
    var e := st.encoder.value;
    var out := e.lame.encode(e.fed, block);
    st.(encoder := Some(e.(fed := e.fed + [block])), chunks := if |out| > 0 then st.chunks + [out] else st.chunks)
  }

  /** Feeding keeps the wiring, and keeps a valid session valid: the chunks still hold all that was produced. */
  lemma FeedKeepsValid(st: SessionState, block: Block)
    requires st.encoder.Some?
    ensures WiredState(st) ==> WiredState(FedFrom(st, block))
    ensures ValidState(st) && st.recording ==> ValidState(FedFrom(st, block))
  {
    var e := st.encoder.value;
    var out := e.lame.encode(e.fed, block);
    ProducedSnoc(e, block);
    if |out| > 0 {
      ConcatSnoc(st.chunks, out);
    } else {
      assert Produced(e) + out == Produced(e);
    }
  }

  /** The state after saving: no chunk left, and the elapsed seconds reset when something was saved. */
  function SavedFrom(st: SessionState): (r: SessionState)
    ensures r.chunks == [] && r.elapsed == (if st.chunks == [] then st.elapsed else 0)
    ensures r.(chunks := st.chunks, elapsed := st.elapsed) == st
  {
    st.(chunks := [], elapsed := if st.chunks == [] then st.elapsed else 0)
  }

  /** What saving the chunks of an encoder hands out, if anything. */
  function SavedFile(chunks: seq<Bytes>, encoder: Option<Encoder>, stationName: Option<string>, clock: Clock): (r: Option<Recording>)
    requires chunks != [] ==> encoder.Some?
    ensures r.None? <==> chunks == []
    ensures r.Some? ==> r.value.fileName == RecordingName(stationName, clock)
    ensures r.Some? ==> |r.value.bytes| >= |Concat(chunks)| && r.value.bytes[..|Concat(chunks)|] == Concat(chunks)
  {
    if chunks == [] then None
    else Some(Recording(RecordingName(stationName, clock), Concat(chunks) + encoder.value.lame.flush(encoder.value.fed)))
  }

  /** For a valid recording session, the saved bytes are everything the encoder produced, then the flush output. */
  lemma SavedIsProduced(st: SessionState, stationName: Option<string>, clock: Clock)
    requires ValidState(st) && st.recording && st.chunks != []
    ensures SavedFile(st.chunks, st.encoder, stationName, clock)
         == Some(Recording(RecordingName(stationName, clock),
                           Produced(st.encoder.value) + st.encoder.value.lame.flush(st.encoder.value.fed)))
  {
  }

  /**
   * The session state the player keeps in refs and state hooks: the
   * recording and stopping flags, the encoded chunks, the elapsed seconds,
   * the encoder, the audio context, the processors still connected (`taps`,
   * `tapHeld` for the one the ref holds), the one-second intervals still
   * running (`tickers`, `tickerHeld` for the one the ref holds) and the
   * active schedule.
   */
  class Session {
    var recording: bool
    var stopping: bool
    var chunks: seq<Bytes>
    var elapsed: nat
    var encoder: Option<Encoder>
    var contextReady: bool
    var taps: nat
    var tapHeld: bool
    var tickers: nat
    var tickerHeld: bool
    var schedule: Option<Schedule>

    function State(): SessionState
      reads this
    {
      SessionState(recording, stopping, chunks, elapsed, encoder, contextReady, taps, tapHeld, tickers, tickerHeld)
    }

    /** What holds whichever way the session is driven. */
    predicate Wired()
      reads this
    {
      WiredState(State())
    }

    /** What holds when every start goes through the guarded `Start`. */
    predicate Valid()
      reads this
    {
      ValidState(State())
    }

    constructor()
      ensures Valid() && !recording && elapsed == 0 && schedule == None && !contextReady
    {
      recording := false;
      stopping := false;
      chunks := [];
      elapsed := 0;
      encoder := None;
      contextReady := false;
      taps := 0;
      tapHeld := false;
      tickers := 0;
      tickerHeld := false;
      schedule := None;
    }

    /**
     * `startRecording` as written: ignored while a stop runs, a play request
     * on a paused stream, otherwise a fresh encoder, an empty chunk list, one
     * more tap and one more interval, whether or not a recording is running.
     */
    method StartAsWritten(paused: bool, sampleRate: nat, kbps: nat, lame: Lame) returns (outcome: StartOutcome)
      requires Wired()
      modifies this
      ensures Wired()
      ensures old(stopping) ==> outcome == Ignored && unchanged(this)
      ensures !old(stopping) && paused ==> outcome == PlayRequested && unchanged(this)
      ensures !old(stopping) && !paused ==>
        outcome == Started && State() == StartedFrom(old(State()), sampleRate, kbps, lame) && schedule == old(schedule)
    {
      if stopping {
        return Ignored;
      }
      if paused {
        return PlayRequested;
      }
      StartKeepsWired(State(), sampleRate, kbps, lame);
      contextReady := true;
      chunks := [];
      encoder := Some(Encoder(lame, 2, sampleRate, kbps, []));
      taps := taps + 1;
      tapHeld := true;
      recording := true;
      tickers := tickers + 1;
      tickerHeld := true;
      return Started;
    }

    /** `startRecording` with the guard the other callers apply: a running recording is left alone. */
    method Start(paused: bool, sampleRate: nat, kbps: nat, lame: Lame) returns (outcome: StartOutcome)
      requires Valid()
      modifies this
      ensures Valid()
      ensures old(recording) ==> outcome == Ignored && unchanged(this)
      ensures !old(recording) && paused ==> outcome == PlayRequested && unchanged(this)
      ensures !old(recording) && !paused ==>
        && outcome == Started && State() == StartedFrom(old(State()), sampleRate, kbps, lame)
        && taps == 1 && tickers == 1 && schedule == old(schedule)
    {
      if recording {
        return Ignored;
      }
      if !paused {
        StartKeepsValid(State(), sampleRate, kbps, lame);
      }
      outcome := StartAsWritten(paused, sampleRate, kbps, lame);
    }

    /** One callback of a connected processor: the block is encoded and a non-empty result kept. */
    method Feed(block: Block)
      requires Wired() && taps > 0
      modifies this
      ensures Wired()
      ensures State() == FedFrom(old(State()), block) && schedule == old(schedule)
      ensures old(Valid()) ==> Valid()
    {
      ghost var before := State();
      var e := encoder.value;
      var out := e.lame.encode(e.fed, block);
      encoder := Some(e.(fed := e.fed + [block]));
      if |out| > 0 {
        chunks := chunks + [out];
      }
      FeedKeepsValid(before, block);
    }

    /** `onaudioprocess`: both channels converted to 16-bit PCM, then fed to the encoder as one block. */
    method OnAudioProcess(left: seq<real>, right: seq<real>)
      requires Wired() && taps > 0
      modifies this
      ensures Wired()
      ensures State() == FedFrom(old(State()), PcmBlock(left, right)) && schedule == old(schedule)
      ensures old(Valid()) ==> Valid()
    {
      var l := ToPcm(left);
      var r := ToPcm(right);
      assert Block(l[..], r[..]) == PcmBlock(left, right);
      Feed(Block(l[..], r[..]));
    }

    /** One second passes: every interval still running adds one to the elapsed seconds. */
    method OneSecond()
      modifies this
      ensures elapsed == old(elapsed) + tickers
      ensures recording == old(recording) && chunks == old(chunks) && encoder == old(encoder)
      ensures taps == old(taps) && tapHeld == old(tapHeld) && tickers == old(tickers)
      ensures tickerHeld == old(tickerHeld) && stopping == old(stopping) && schedule == old(schedule)
      ensures contextReady == old(contextReady)
    {
      elapsed := elapsed + tickers;
    }

    /**
     * `saveRecording`: with no chunk nothing is emitted and nothing changes;
     * otherwise the flush output, when not empty, is kept as a last chunk, the
     * chunks are handed out concatenated under the recording's name, and the
     * chunks and elapsed seconds are reset.
     */
    method Save(stationName: Option<string>, clock: Clock) returns (file: Option<Recording>)
      requires Wired()
      modifies this
      ensures Wired()
      ensures file == SavedFile(old(chunks), old(encoder), stationName, clock)
      ensures State() == SavedFrom(old(State())) && schedule == old(schedule)
    {
      if chunks == [] {
        return None;
      }
      var e := encoder.value;
      var tail := e.lame.flush(e.fed);
      if |tail| > 0 {
        ConcatSnoc(chunks, tail);
        chunks := chunks + [tail];
      } else {
        assert Concat(chunks) + tail == Concat(chunks);
      }
      file := Some(Recording(RecordingName(stationName, clock), Concat(chunks)));
      chunks := [];
      elapsed := 0;
    }

    /** The release step of `stopRecording`: the stopping flag goes up, recording ends, the held interval and tap are let go. */
    method Release()
      requires Wired()
      modifies this
      ensures State() == ReleasedFrom(old(State())) && schedule == old(schedule)
    {
      stopping := true;
      recording := false;
      if tickerHeld {
        tickers := tickers - 1;
        tickerHeld := false;
      }
      if tapHeld {
        taps := taps - 1;
        tapHeld := false;
      }
    }

    /**
     * `stopRecording`: ignored while a stop runs; otherwise recording ends,
     * the held interval and tap are released, the recording is saved and the
     * stopping flag is down again on return.
     */
    method Stop(stationName: Option<string>, clock: Clock) returns (file: Option<Recording>)
      requires Wired()
      modifies this
      ensures Wired()
      ensures old(stopping) ==> file == None && unchanged(this)
      ensures !old(stopping) ==>
        && State() == StoppedFrom(old(State())) && schedule == old(schedule)
        && file == SavedFile(old(chunks), old(encoder), stationName, clock)
      ensures old(Valid()) ==> Valid()
      ensures old(Valid()) && old(recording) && old(chunks) != [] ==>
        file == Some(Recording(RecordingName(stationName, clock),
                               Produced(old(encoder.value)) + old(encoder.value).lame.flush(old(encoder.value.fed))))
    {
      if stopping {
        return None;
      }
      ghost var before := State();
      ghost var wasValid := Valid();
      ReleaseThenSave(before);
      Release();
      file := Save(stationName, clock);
      stopping := false;
      StopKeepsValid(before);
      if wasValid && before.recording && before.chunks != [] {
        SavedIsProduced(before, stationName, clock);
      }
    }

    /**
     * One tick of the schedule monitor: the decision of `CheckSchedule` on
     * what the session holds, then its effect. The monitor runs whatever
     * state earlier starts left behind, so only the wiring is required. A
     * stop clears the schedule first and saves under the playing station's
     * name; a start calls `startRecording` itself, which the decision only
     * takes when nothing is recording or stopping; a station switch is left
     * to the caller.
     */
    method Tick(now: int, weekday: int, loading: bool, currentId: Option<string>, stations: seq<Station>,
                canSelect: bool, paused: bool, sampleRate: nat, kbps: nat, lame: Lame,
                stationName: Option<string>, clock: Clock)
      returns (action: Action, file: Option<Recording>)
      requires Wired()
      modifies this
      ensures Wired()
      ensures old(Valid()) ==> Valid()
      ensures action == CheckSchedule(old(schedule),
        Observation(now, weekday, old(recording), loading, old(stopping), old(elapsed), currentId, stations, canSelect))
      ensures action == ClearAndStop ==> schedule == None
      ensures action == ClearAndStop && old(stopping) ==> State() == old(State()) && file == None
      ensures action == ClearAndStop && !old(stopping) ==>
        && State() == StoppedFrom(old(State()))
        && file == SavedFile(old(chunks), old(encoder), stationName, clock)
        && (old(Valid()) && old(chunks) != [] ==>
              file == Some(Recording(RecordingName(stationName, clock),
                                     Produced(old(encoder.value)) + old(encoder.value).lame.flush(old(encoder.value.fed)))))
      ensures action == StartRecording && paused ==> unchanged(this) && file == None
      ensures action == StartRecording && !paused ==>
        State() == StartedFrom(old(State()), sampleRate, kbps, lame) && schedule == old(schedule) && file == None
      ensures (action == Idle || action.Select?) ==> unchanged(this) && file == None
    {
      var seen := Observation(now, weekday, recording, loading, stopping, elapsed, currentId, stations, canSelect);
      action := CheckSchedule(schedule, seen);
      file := None;
      match action {
        case ClearAndStop =>
          schedule := None;
          file := Stop(stationName, clock);
        case StartRecording =>
          if !paused && Valid() {
            StartKeepsValid(State(), sampleRate, kbps, lame);
          }
          var _ := StartAsWritten(paused, sampleRate, kbps, lame);
        case _ =>
      }
    }

    /**
     * `applySchedule`: the schedule is activated and nothing else changes.
     * In timer mode a start is due; the source defers it by 100 ms, so the
     * caller runs it as a call of its own (`StartAsWritten` as written,
     * `Start` with the guard), and monitor ticks may come in between.
     */
    method Arm(f: Form, today: int, pickedDay: int, currentId: Option<string>) returns (startDue: bool)
      modifies this
      ensures State() == old(State())
      ensures ApplySchedule(f, today, pickedDay, currentId).None? ==> schedule == old(schedule)
      ensures ApplySchedule(f, today, pickedDay, currentId).Some? ==>
        schedule == Some(ApplySchedule(f, today, pickedDay, currentId).value.schedule)
      ensures startDue <==> f.mode == ByDuration
    {
      var applied := ApplySchedule(f, today, pickedDay, currentId);
      startDue := false;
      if applied.Some? {
        schedule := Some(applied.value.schedule);
        startDue := applied.value.startNow;
      }
    }
  }

  /**
   * Arming a timer while recording, as written: the bytes recorded so far
   * are dropped without being saved, and a second tap and a second interval
   * stay live.
   */
  method TimerWhileRecordingAsWritten(f: Form, lame: Lame, block: Block) returns (s: Session, lost: Bytes)
    requires f.mode == ByDuration
    requires |lame.encode([], block)| > 0
    ensures lost == lame.encode([], block) && |lost| > 0
    ensures s.recording && s.chunks == [] && s.taps == 2 && s.tickers == 2
  {
    s := new Session();
    var _ := s.StartAsWritten(false, 44100, DefaultKbps, lame);
    s.Feed(block);
    lost := Concat(s.chunks);
    assert s.chunks == [lame.encode([], block)];
    assert Concat(s.chunks) == Concat([]) + lame.encode([], block);
    var due := s.Arm(f, 0, 0, None);
    assert due;
    var _ := s.StartAsWritten(false, 44100, DefaultKbps, lame);
  }

  /** The same steps with the guarded start: the recording keeps its bytes and stays single. */
  method TimerWhileRecording(f: Form, lame: Lame, block: Block) returns (s: Session, kept: Bytes)
    requires f.mode == ByDuration
    ensures s.Valid() && s.recording && s.taps == 1 && s.tickers == 1
    ensures Concat(s.chunks) == kept && kept == lame.encode([], block)
  {
    s := new Session();
    var _ := s.Start(false, 44100, DefaultKbps, lame);
    s.Feed(block);
    kept := Concat(s.chunks);
    ProducedSnoc(Encoder(lame, 2, 44100, DefaultKbps, []), block);
    var due := s.Arm(f, 0, 0, None);
    assert due;
    var _ := s.Start(false, 44100, DefaultKbps, lame);
  }
  // ---------------------------------------------------------------------------
  // Playback

  const NetworkError: string := "Error de Red / Buffer. Reintentando..."
  const PlayError: string := "Stream no disponible temporalmente."

  datatype PlayRequest = NoRequest | PauseRequest | PlayRequest

  /** The playback flags, the volume controls, the keep-alive switch and the reload retries still pending. */
  class Playback {
    var playing: bool
    var buffering: bool
    var loading: bool
    var error: Option<string>
    var volume: real
    var muted: bool
    var keepAlive: bool
    var pendingRetries: nat
    var loads: nat

    constructor()
      ensures !playing && !buffering && !loading && error == None
      ensures volume == 0.7 && !muted && !keepAlive && pendingRetries == 0 && loads == 0
    {
      playing := false;
      buffering := false;
      loading := false;
      error := None;
      volume := 0.7;
      muted := false;
      keepAlive := false;
      pendingRetries := 0;
      loads := 0;
    }

    /** The mute button shows the muted icon: `isMuted || volume === 0`. */
    predicate ShowsMutedIcon()
      reads this
    {
      muted || volume == 0.0
    }

    /**
     * `audio.volume = isMuted ? 0 : volume`, which is also what the slider
     * shows: the muted icon is on exactly when nothing is heard.
     */
    function EffectiveVolume(): (v: real)
      reads this
      ensures v == 0.0 <==> ShowsMutedIcon()
    {
      if muted then 0.0 else volume
    }

    method OnPlay()
      modifies this
      ensures playing && !buffering && keepAlive
      ensures loading == old(loading) && error == old(error) && volume == old(volume) && muted == old(muted)
      ensures pendingRetries == old(pendingRetries) && loads == old(loads)
    {
      playing := true;
      buffering := false;
      keepAlive := true;
    }

    method OnPause()
      modifies this
      ensures !playing && !keepAlive
      ensures buffering == old(buffering) && loading == old(loading) && error == old(error)
      ensures volume == old(volume) && muted == old(muted) && pendingRetries == old(pendingRetries) && loads == old(loads)
    {
      playing := false;
      keepAlive := false;
    }

    method OnLoadStart()
      modifies this
      ensures loading && buffering && error == None
      ensures playing == old(playing) && volume == old(volume) && muted == old(muted) && keepAlive == old(keepAlive)
      ensures pendingRetries == old(pendingRetries) && loads == old(loads)
    {
      loading := true;
      buffering := true;
      error := None;
    }

    method OnCanPlay()
      modifies this
      ensures !loading && !buffering && error == None
      ensures playing == old(playing) && volume == old(volume) && muted == old(muted) && keepAlive == old(keepAlive)
      ensures pendingRetries == old(pendingRetries) && loads == old(loads)
    {
      loading := false;
      buffering := false;
      error := None;
    }

    method OnWaiting()
      modifies this
      ensures buffering
      ensures playing == old(playing) && loading == old(loading) && error == old(error) && volume == old(volume)
      ensures muted == old(muted) && keepAlive == old(keepAlive) && pendingRetries == old(pendingRetries) && loads == old(loads)
    {
      buffering := true;
    }

    method OnPlaying()
      modifies this
      ensures !buffering
      ensures playing == old(playing) && loading == old(loading) && error == old(error) && volume == old(volume)
      ensures muted == old(muted) && keepAlive == old(keepAlive) && pendingRetries == old(pendingRetries) && loads == old(loads)
    {
      buffering := false;
    }

    /** A stream error: every activity flag down, the message shown and one more reload scheduled, with no cap. */
    method OnError()
      modifies this
      ensures !loading && !playing && !buffering && error == Some(NetworkError)
      ensures pendingRetries == old(pendingRetries) + 1
      ensures volume == old(volume) && muted == old(muted) && keepAlive == old(keepAlive) && loads == old(loads)
    {
      loading := false;
      playing := false;
      buffering := false;
      error := Some(NetworkError);
      pendingRetries := pendingRetries + 1;
    }

    /** A scheduled reload fires: the stream is loaded again if a station is selected. */
    method RetryFires(hasStation: bool)
      requires pendingRetries > 0
      modifies this
      ensures pendingRetries == old(pendingRetries) - 1
      ensures loads == old(loads) + (if hasStation then 1 else 0)
      ensures playing == old(playing) && buffering == old(buffering) && loading == old(loading)
      ensures error == old(error) && volume == old(volume) && muted == old(muted) && keepAlive == old(keepAlive)
    {
      pendingRetries := pendingRetries - 1;
      if hasStation {
        loads := loads + 1;
      }
    }

    /**
     * A new station selected: the error is cleared and, with a station, the
     * element is paused, its stream loaded and then played. The requests come
     * out in that order; the pause comes before the load, so a playing
     * element reports `OnPause` before the new play is answered, and a play
     * that is refused leaves it paused.
     */
    method Tune(hasStation: bool) returns (requests: seq<PlayRequest>)
      modifies this
      ensures error == None
      ensures loads == old(loads) + (if hasStation then 1 else 0)
      ensures requests == (if hasStation then [PauseRequest, PlayRequest] else [])
      ensures playing == old(playing) && buffering == old(buffering) && loading == old(loading)
      ensures volume == old(volume) && muted == old(muted) && keepAlive == old(keepAlive)
      ensures pendingRetries == old(pendingRetries)
    {
      error := None;
      requests := [];
      if hasStation {
        requests := requests + [PauseRequest];
        loads := loads + 1;
        requests := requests + [PlayRequest];
      }
    }

    /** `togglePlay`: nothing without a station, a pause while playing, otherwise a play. */
    method TogglePlay(hasStation: bool) returns (request: PlayRequest)
      ensures !hasStation ==> request == NoRequest
      ensures hasStation ==> request == (if playing then PauseRequest else PlayRequest)
    {
      if !hasStation {
        return NoRequest;
      }
      request := if playing then PauseRequest else PlayRequest;
    }

    /** A play request was refused by the browser. */
    method PlayRefused()
      modifies this
      ensures error == Some(PlayError)
      ensures playing == old(playing) && buffering == old(buffering) && loading == old(loading)
      ensures volume == old(volume) && muted == old(muted) && keepAlive == old(keepAlive)
      ensures pendingRetries == old(pendingRetries) && loads == old(loads)
    {
      error := Some(PlayError);
    }

    /** The mute button: the sound goes to zero, or comes back at the slider's volume. */
    method ToggleMute()
      modifies this
      ensures muted == !old(muted) && volume == old(volume)
      ensures muted ==> EffectiveVolume() == 0.0
      ensures !muted ==> EffectiveVolume() == old(volume)
      ensures playing == old(playing) && buffering == old(buffering) && loading == old(loading)
      ensures error == old(error) && keepAlive == old(keepAlive)
      ensures pendingRetries == old(pendingRetries) && loads == old(loads)
    {
      muted := !muted;
    }

    /** Moving the slider sets the volume and also un-mutes. */
    method Slide(v: real)
      requires 0.0 <= v <= 1.0
      modifies this
      ensures volume == v && !muted && EffectiveVolume() == v
      ensures playing == old(playing) && buffering == old(buffering) && loading == old(loading)
      ensures error == old(error) && keepAlive == old(keepAlive)
      ensures pendingRetries == old(pendingRetries) && loads == old(loads)
    {
      volume := v;
      muted := false;
    }
  }
}
