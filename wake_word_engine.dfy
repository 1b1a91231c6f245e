/**
 * The on-device wake-word pipeline (`OpenWakeWordEngine`). Microphone
 * samples are queued, drained in chunks of 1280 (80 ms at 16 kHz), each
 * chunk prefixed by the last 352 samples of the previous one and turned
 * into mel frames; every time 76 mel frames are available an embedding is
 * computed, and once `SEQ_LEN` embeddings are available the classifier
 * scores them and the score is smoothed into a wake decision.
 *
 * The three inference sessions are uninterpreted functions; the clock is a
 * parameter (`now`); the `onWake` callback is recorded as the clock
 * readings at which it was dispatched.
 */
module WakeWordEngine {
  import opened Common
  import opened OnnxOutput
  import opened FrameRings
  import opened ScoreSmoothing

  const CHUNK_SAMPLES: int := 1280
  const MEL_OVERLAP: int := 352
  const MEL_INPUT: int := 1632
  const MEL_BANDS: int := 32
  const MEL_FRAMES_FOR_EMBED: int := 76
  const MEL_RING_CAP_FRAMES: int := 192

  /** A 16-bit PCM sample (`Short`). */
  newtype int16 = x: int | -0x8000 <= x < 0x8000

  /** `(s / 32768.0f).coerceIn(-1f, 1f)`. */
  function NormalizeSample(s: int16): real {
    var x := (s as real) / 32768.0;
    if x < -1.0 then -1.0 else if x > 1.0 then 1.0 else x
  }

  /** The clamp never bites: every sample maps to `s / 32768`, inside [-1, 1). */
  lemma NormalizeSampleExact(s: int16)
    ensures NormalizeSample(s) == (s as real) / 32768.0
    ensures -1.0 <= NormalizeSample(s) < 1.0
  {
  }

  function NormalizeSamples(xs: seq<int16>): (r: seq<real>)
    ensures |r| == |xs|
    ensures forall i | 0 <= i < |xs| :: r[i] == NormalizeSample(xs[i])
  {
    seq(|xs|, i requires 0 <= i < |xs| => NormalizeSample(xs[i]))
  }

  function Zeros(n: nat): (r: seq<real>)
    ensures |r| == n && forall i | 0 <= i < n :: r[i] == 0.0
  {
    seq(n, _ => 0.0)
  }

  /** `(x / 10.0f) + 2.0f` applied to every mel value. */
  function NormalizeMel(xs: seq<real>): (r: seq<real>)
    ensures |r| == |xs|
    ensures forall i | 0 <= i < |xs| :: r[i] == xs[i] / 10.0 + 2.0
  {
    seq(|xs|, i requires 0 <= i < |xs| => xs[i] / 10.0 + 2.0)
  }

  /** The first `n` frames of 32 mel bands laid out one after the other in `flat`. */
  function MelFrames(flat: seq<real>, n: nat): (r: seq<seq<real>>)
    requires MEL_BANDS * n <= |flat|
    ensures |r| == n
    ensures forall f | 0 <= f < n :: r[f] == flat[MEL_BANDS * f..MEL_BANDS * f + MEL_BANDS]
  {
    seq(n, f requires 0 <= f < n => flat[MEL_BANDS * f..MEL_BANDS * f + MEL_BANDS])
  }

  /** One more frame of `flat` is the next 32 values. */
  lemma MelFramesStep(flat: seq<real>, n: nat)
    requires MEL_BANDS * (n + 1) <= |flat|
    ensures MelFrames(flat, n + 1) == MelFrames(flat, n) + [flat[MEL_BANDS * n..MEL_BANDS * n + MEL_BANDS]]
  {
  }

  /** Advancing the mel ring's cursor by one is advancing the frame count by one, modulo 192. */
  lemma CursorStep(a: nat)
    ensures (a % MEL_RING_CAP_FRAMES + 1) % MEL_RING_CAP_FRAMES == (a + 1) % MEL_RING_CAP_FRAMES
  {
  }

  /** The three inference sessions: mel spectrogram, embedding and keyword classifier. */
  datatype Sessions = Sessions(
    mel: seq<real> -> OnnxValue,
    embed: seq<real> -> OnnxValue,
    keyword: seq<real> -> OnnxValue)

  /** `runMel`, `runEmbed`: the flattened session output. */
  function RunMel(ss: Sessions, audio: seq<real>): seq<real> { FlattenOnnx(ss.mel(audio)) }

  function RunEmbed(ss: Sessions, window: seq<real>): seq<real> { FlattenOnnx(ss.embed(window)) }

  /** `runKeyword(seq).coerceIn(0f, 1f)`. */
  function RunKeyword(ss: Sessions, window: seq<real>): real { KeywordScore(FlattenOnnx(ss.keyword(window))) }

  // ---------------------------------------------------------------------
  // The chunked stream

  /**
   * `inputs` are the mel inputs built so far from the samples `consumed`:
   * input `c` ends with the `c`-th run of 1280 consumed samples and starts
   * with 352 zeros for the first chunk, else with the last 352 values of
   * the previous input.
   */
  ghost predicate ChunkedStream(inputs: seq<seq<real>>, consumed: seq<real>) {
    && |consumed| == CHUNK_SAMPLES * |inputs|
    && (forall c | 0 <= c < |inputs| ::
          |inputs[c]| == MEL_INPUT &&
          inputs[c][MEL_OVERLAP..] == consumed[CHUNK_SAMPLES * c..CHUNK_SAMPLES * c + CHUNK_SAMPLES])
    && (|inputs| > 0 ==> inputs[0][..MEL_OVERLAP] == Zeros(MEL_OVERLAP))
    && (forall c | 0 < c < |inputs| :: inputs[c][..MEL_OVERLAP] == inputs[c - 1][CHUNK_SAMPLES..])
  }

  /** The fresh parts of the inputs, one after the other. */
  function FreshParts(inputs: seq<seq<real>>): seq<real>
    requires forall c | 0 <= c < |inputs| :: |inputs[c]| >= MEL_OVERLAP
  {
    if inputs == [] then [] else FreshParts(inputs[..|inputs| - 1]) + inputs[|inputs| - 1][MEL_OVERLAP..]
  }

  /** Concatenating the 1280 fresh samples of every chunk gives back the consumed stream. */
  lemma {:induction false} FreshPartsReassemble(inputs: seq<seq<real>>, consumed: seq<real>)
    requires ChunkedStream(inputs, consumed)
    ensures FreshParts(inputs) == consumed
  {
    if inputs != [] {
      var n := |inputs| - 1;
      var prefix := consumed[..CHUNK_SAMPLES * n];
      assert ChunkedStream(inputs[..n], prefix) by {
        forall c | 0 <= c < n
          ensures inputs[..n][c][MEL_OVERLAP..] == prefix[CHUNK_SAMPLES * c..CHUNK_SAMPLES * c + CHUNK_SAMPLES]
        {
          assert inputs[c][MEL_OVERLAP..] == consumed[CHUNK_SAMPLES * c..CHUNK_SAMPLES * c + CHUNK_SAMPLES];
        }
      }
      FreshPartsReassemble(inputs[..n], prefix);
      assert consumed == prefix + consumed[CHUNK_SAMPLES * n..];
    }
  }

  /**
   * Every mel input is a sliding window over the sample stream: the first
   * is 352 zeros and the first 1280 samples; input `c` after it is exactly
   * the 1632 consumed samples ending with chunk `c`.
   */
  lemma InputIsSlidingWindow(inputs: seq<seq<real>>, consumed: seq<real>, c: nat)
    requires ChunkedStream(inputs, consumed) && c < |inputs|
    ensures c == 0 ==> inputs[0] == Zeros(MEL_OVERLAP) + consumed[..CHUNK_SAMPLES]
    ensures c > 0 ==> inputs[c] == consumed[CHUNK_SAMPLES * c - MEL_OVERLAP..CHUNK_SAMPLES * c + CHUNK_SAMPLES]
  {
    assert inputs[c] == inputs[c][..MEL_OVERLAP] + inputs[c][MEL_OVERLAP..];
    if c > 0 {
      var prev := inputs[c - 1];
      assert prev[MEL_OVERLAP..] == consumed[CHUNK_SAMPLES * (c - 1)..CHUNK_SAMPLES * c];
      assert prev[CHUNK_SAMPLES..] == prev[MEL_OVERLAP..][CHUNK_SAMPLES - MEL_OVERLAP..];
      assert consumed[CHUNK_SAMPLES * c - MEL_OVERLAP..CHUNK_SAMPLES * c + CHUNK_SAMPLES]
          == consumed[CHUNK_SAMPLES * c - MEL_OVERLAP..CHUNK_SAMPLES * c]
           + consumed[CHUNK_SAMPLES * c..CHUNK_SAMPLES * c + CHUNK_SAMPLES];
    }
  }

  // ---------------------------------------------------------------------
  // What one chunk does to the rings and the smoothing state

  /** The engine's settings: `threshold`, `smoothWindow` and `SEQ_LEN`. */
  datatype Config = Config(threshold: real, smoothWindow: nat, seqLen: nat)

  /**
   * The pipeline's state as seen from outside the rings: every mel frame and
   * every embedding ever pushed, the smoothing state, the clock readings of
   * the `onWake` dispatches, and the inputs given to the embedding and
   * classifier sessions.
   */
  datatype Pipeline = Pipeline(
    mels: seq<seq<real>>,
    embs: seq<seq<real>>,
    smoothing: Smoothing,
    wakes: seq<int>,
    embedInputs: seq<seq<real>>,
    keywordInputs: seq<seq<real>>)

  /**
   * Once 76 mel frames are held: the embedding of the last 76; if it has 96
   * values it is pushed, and once `SEQ_LEN` embeddings are held the
   * classifier scores the last `SEQ_LEN` and the score is smoothed.
   */
  function EmbedStep(p: Pipeline, cfg: Config, ss: Sessions, now: int): Pipeline
    requires 1 <= cfg.smoothWindow && |p.mels| >= MEL_FRAMES_FOR_EMBED
  {
    var window := Flatten(LastN(p.mels, MEL_FRAMES_FOR_EMBED));
    var emb := RunEmbed(ss, window);
    var p1 := p.(embedInputs := p.embedInputs + [window]);
    if |emb| != EMB_DIM then p1
    else
      var embs := p.embs + [emb];
      if |embs| < cfg.seqLen then p1.(embs := embs)
      else
        var input := Flatten(LastN(embs, cfg.seqLen));
        var step := Smooth(p.smoothing, cfg.smoothWindow, cfg.threshold, RunKeyword(ss, input), now);
        p1.(embs := embs, keywordInputs := p.keywordInputs + [input], smoothing := step.state,
            wakes := if step.fired then p.wakes + [now] else p.wakes)
  }

  /**
   * One iteration of the drain loop after its mel input is built: no mel
   * frame means nothing more happens; otherwise the normalised frames are
   * pushed and the embedding stage runs once 76 frames are held.
   */
  function ChunkStep(p: Pipeline, cfg: Config, ss: Sessions, input: seq<real>, now: int): Pipeline
    requires 1 <= cfg.smoothWindow
  {
    var melOut := RunMel(ss, input);
    var frames := |melOut| / MEL_BANDS;
    if frames == 0 then p
    else
      var p1 := p.(mels := p.mels + MelFrames(NormalizeMel(melOut), frames));
      if |p1.mels| < MEL_FRAMES_FOR_EMBED then p1 else EmbedStep(p1, cfg, ss, now)
  }

  /** The chunks of `inputs`, in order, all at clock reading `now`. */
  function ChunkSteps(p: Pipeline, cfg: Config, ss: Sessions, inputs: seq<seq<real>>, now: int): Pipeline
    requires 1 <= cfg.smoothWindow
  {
    if inputs == [] then p
    else ChunkStep(ChunkSteps(p, cfg, ss, inputs[..|inputs| - 1], now), cfg, ss, inputs[|inputs| - 1], now)
  }

  /** Every mel frame is 32 values wide and every embedding 96. */
  ghost predicate WellShaped(p: Pipeline) {
    && (forall i | 0 <= i < |p.mels| :: |p.mels[i]| == MEL_BANDS)
    && (forall i | 0 <= i < |p.embs| :: |p.embs[i]| == EMB_DIM)
  }

  /**
   * Mel gating: the mel output's whole frames are appended, normalised; an
   * embedding is computed exactly when there was a frame and at least 76
   * are now held, and its input is the last 76 frames, 76 * 32 values.
   */
  lemma EmbeddingGate(p: Pipeline, cfg: Config, ss: Sessions, input: seq<real>, now: int)
    requires 1 <= cfg.smoothWindow && WellShaped(p)
    ensures var melOut := RunMel(ss, input);
            var frames := |melOut| / MEL_BANDS;
            var r := ChunkStep(p, cfg, ss, input, now);
            && (frames == 0 ==> r == p)
            && r.mels == p.mels + (if frames > 0 then MelFrames(NormalizeMel(melOut), frames) else [])
            && WellShaped(r)
            && |r.embedInputs| == |p.embedInputs| + (if frames > 0 && |r.mels| >= MEL_FRAMES_FOR_EMBED then 1 else 0)
            && (|r.embedInputs| > |p.embedInputs| ==>
                  var window := r.embedInputs[|r.embedInputs| - 1];
                  window == Flatten(LastN(r.mels, MEL_FRAMES_FOR_EMBED)) &&
                  |window| == MEL_FRAMES_FOR_EMBED * MEL_BANDS)
  {
    var melOut := RunMel(ss, input);
    var frames := |melOut| / MEL_BANDS;
    if frames > 0 {
      var mels := p.mels + MelFrames(NormalizeMel(melOut), frames);
      if |mels| >= MEL_FRAMES_FOR_EMBED {
        FlattenLength(LastN(mels, MEL_FRAMES_FOR_EMBED), MEL_BANDS);
        EmbedStepShape(p.(mels := mels), cfg, ss, now);
      }
    }
  }

  /**
   * Embedding gating: an embedding enters the ring only when it has
   * exactly 96 values; the classifier runs only when that push brings the
   * ring to `SEQ_LEN` embeddings, on the last `SEQ_LEN` of them,
   * `SEQ_LEN * 96` values; without a classification the smoothing state
   * and the wake log stay as they were.
   */
  lemma ClassifierGate(p: Pipeline, cfg: Config, ss: Sessions, now: int)
    requires 1 <= cfg.smoothWindow && |p.mels| >= MEL_FRAMES_FOR_EMBED && WellShaped(p)
    ensures var emb := RunEmbed(ss, Flatten(LastN(p.mels, MEL_FRAMES_FOR_EMBED)));
            var r := EmbedStep(p, cfg, ss, now);
            && r.mels == p.mels
            && r.embs == p.embs + (if |emb| == EMB_DIM then [emb] else [])
            && |r.keywordInputs| == |p.keywordInputs| + (if |emb| == EMB_DIM && |r.embs| >= cfg.seqLen then 1 else 0)
            && (|r.keywordInputs| > |p.keywordInputs| ==>
                  var input := r.keywordInputs[|r.keywordInputs| - 1];
                  input == Flatten(LastN(r.embs, cfg.seqLen)) && |input| == cfg.seqLen * EMB_DIM)
            && (|r.keywordInputs| == |p.keywordInputs| ==> r.smoothing == p.smoothing && r.wakes == p.wakes)
  {
    var emb := RunEmbed(ss, Flatten(LastN(p.mels, MEL_FRAMES_FOR_EMBED)));
    if |emb| == EMB_DIM && |p.embs| + 1 >= cfg.seqLen {
      EmbedStepShape(p, cfg, ss, now);
      FlattenLength(LastN(p.embs + [emb], cfg.seqLen), EMB_DIM);
    }
  }

  lemma EmbedStepShape(p: Pipeline, cfg: Config, ss: Sessions, now: int)
    requires 1 <= cfg.smoothWindow && |p.mels| >= MEL_FRAMES_FOR_EMBED && WellShaped(p)
    ensures WellShaped(EmbedStep(p, cfg, ss, now))
  {
  }

  /**
   * What one chunk does to the wake log: either nothing (and `lastFireAt`
   * stays), or it appends `now`, which is more than 600 ms after the
   * previous `lastFireAt` and becomes the new one. The score window never
   * exceeds `smoothWindow`.
   */
  lemma ChunkStepWakes(p: Pipeline, cfg: Config, ss: Sessions, input: seq<real>, now: int)
    requires 1 <= cfg.smoothWindow && |p.smoothing.scores| <= cfg.smoothWindow
    ensures var r := ChunkStep(p, cfg, ss, input, now);
            && |r.smoothing.scores| <= cfg.smoothWindow
            && ((r.wakes == p.wakes && r.smoothing.lastFireAt == p.smoothing.lastFireAt) ||
                (r.wakes == p.wakes + [now] && r.smoothing.lastFireAt == now &&
                 now - p.smoothing.lastFireAt > COOLDOWN_MS))
  {
  }

  /** The wake log is spaced by the cooldown from `start` on, and `lastFireAt` is its last entry. */
  ghost predicate WakesSpaced(p: Pipeline, start: int) {
    && Spaced(start, p.wakes)
    && p.smoothing.lastFireAt == (if p.wakes == [] then start else p.wakes[|p.wakes| - 1])
  }

  /**
   * Whatever the sessions return, the dispatches of `onWake` over any run of
   * chunks stay more than 600 ms apart.
   */
  lemma ChunkStepKeepsWakesSpaced(p: Pipeline, cfg: Config, ss: Sessions, input: seq<real>, now: int, start: int)
    requires 1 <= cfg.smoothWindow && |p.smoothing.scores| <= cfg.smoothWindow
    requires WakesSpaced(p, start)
    ensures WakesSpaced(ChunkStep(p, cfg, ss, input, now), start)
  {
    ChunkStepWakes(p, cfg, ss, input, now);
    var r := ChunkStep(p, cfg, ss, input, now);
    if r.wakes != p.wakes {
      SpacedAppend(start, p.wakes, now);
    }
  }

  /**
   * A read yields at most one chunk (see `Engine.OnRead`), so it dispatches
   * `onWake` at most once, and then at the clock reading of that chunk's
   * score.
   */
  lemma AtMostOneWakePerRead(p: Pipeline, cfg: Config, ss: Sessions, inputs: seq<seq<real>>, now: int)
    requires 1 <= cfg.smoothWindow && |p.smoothing.scores| <= cfg.smoothWindow
    requires |inputs| <= 1
    ensures var r := ChunkSteps(p, cfg, ss, inputs, now);
            && |r.smoothing.scores| <= cfg.smoothWindow
            && ((r.wakes == p.wakes && r.smoothing.lastFireAt == p.smoothing.lastFireAt) ||
                (r.wakes == p.wakes + [now] && r.smoothing.lastFireAt == now))
  {
    if inputs != [] {
      assert inputs[..0] == [];
      ChunkStepWakes(p, cfg, ss, inputs[0], now);
    }
  }

  class Engine {
    const threshold: real
    const smoothWindow: nat
    /** `SEQ_LEN`, as derived from the classifier's input shape. */
    const seqLen: nat
    /** The last 352 samples of the previous mel input. */
    const pcmOverlap: array<real>
    const melRing: FrameRing
    const embRing: FrameRing
    /** Samples waiting to be chunked. */
    var pcmQueue: seq<real>
    var pcmOverlapFilled: int
    var lastScores: seq<real>
    var lastFireAt: int
    /** Clock readings at which `onWake` was dispatched. */
    var wakes: seq<int>

    /** Every sample ever queued, the samples taken into chunks, and the mel inputs built from them. */
    ghost var enqueued: seq<real>
    ghost var consumed: seq<real>
    ghost var melInputs: seq<seq<real>>
    /** The inputs given to the embedding and keyword sessions. */
    ghost var embedInputs: seq<seq<real>>
    ghost var keywordInputs: seq<seq<real>>

    ghost predicate Valid()
      reads this, pcmOverlap, melRing, melRing.data, embRing, embRing.data
    {
      && RingsValid()
      && pcmOverlap != melRing.data && pcmOverlap != embRing.data
      && 1 <= smoothWindow && |lastScores| <= smoothWindow
      && StreamValid()
    }

    /** The two rings: 192 frames of 32 mel bands, `SEQ_LEN` embeddings of 96 values, in separate arrays. */
    ghost predicate RingsValid()
      reads melRing, melRing.data, embRing, embRing.data
    {
      && melRing != embRing && melRing.data != embRing.data
      && melRing.Valid() && melRing.capacity == MEL_RING_CAP_FRAMES && melRing.width == MEL_BANDS
      && embRing.Valid() && embRing.capacity == seqLen && embRing.width == EMB_DIM
    }

    /** The sample queue, the overlap buffer and the mel inputs built so far. */
    ghost predicate StreamValid()
      reads this`pcmQueue, this`pcmOverlapFilled, this`enqueued, this`consumed, this`melInputs, pcmOverlap
    {
      && pcmOverlap.Length == MEL_OVERLAP
      && enqueued == consumed + pcmQueue
      && ChunkedStream(melInputs, consumed)
      && (pcmOverlapFilled == MEL_OVERLAP || pcmOverlapFilled == 0)
      && (pcmOverlapFilled == MEL_OVERLAP <==> |melInputs| > 0)
      && (|melInputs| > 0 ==> pcmOverlap[..] == melInputs[|melInputs| - 1][CHUNK_SAMPLES..])
    }

    /**
     * An engine whose classifier reports `classifierShape` (`None` when the
     * input has no tensor shape), after `start()` has sized the embedding
     * ring: nothing queued, both rings empty, no score and no firing yet.
     */
    constructor (threshold: real, smoothWindow: nat, classifierShape: Option<seq<int>>)
      requires 1 <= smoothWindow
      ensures Valid() && fresh(melRing) && fresh(melRing.data) && fresh(embRing) && fresh(embRing.data)
      ensures this.threshold == threshold && this.smoothWindow == smoothWindow
      ensures seqLen == SeqLen(classifierShape) && embRing.capacity == seqLen
      ensures embRing.data.Length == seqLen * EMB_DIM <= INT_MAX
      ensures pcmQueue == [] && pcmOverlapFilled == 0 && lastScores == [] && lastFireAt == 0 && wakes == []
      ensures melRing.count == 0 && embRing.count == 0
    {
      this.threshold := threshold;
      this.smoothWindow := smoothWindow;
      seqLen := SeqLen(classifierShape);
      pcmOverlap := new real[MEL_OVERLAP](_ => 0.0);
      melRing := new FrameRing(MEL_RING_CAP_FRAMES, MEL_BANDS);
      embRing := new FrameRing(SeqLen(classifierShape), EMB_DIM);
      pcmQueue := [];
      pcmOverlapFilled := 0;
      lastScores := [];
      lastFireAt := 0;
      wakes := [];
      enqueued := [];
      consumed := [];
      melInputs := [];
      embedInputs := [];
      keywordInputs := [];
    }

    /**
     * One microphone read of `read` samples into `buf`: nothing happens for
     * `read <= 0`, else every sample is normalised and queued in order.
     */
    method Enqueue(buf: array<int16>, read: int)
      requires Valid() && read <= buf.Length
      modifies this`pcmQueue, this`enqueued
      ensures Valid()
      ensures read <= 0 ==> pcmQueue == old(pcmQueue) && enqueued == old(enqueued)
      ensures read > 0 ==> pcmQueue == old(pcmQueue) + NormalizeSamples(buf[..read])
      ensures read > 0 ==> enqueued == old(enqueued) + NormalizeSamples(buf[..read])
    {
      if read <= 0 {
        return;
      }
      for i := 0 to read
        modifies this`pcmQueue, this`enqueued
        invariant enqueued == consumed + pcmQueue
        invariant pcmQueue == old(pcmQueue) + NormalizeSamples(buf[..i])
        invariant enqueued == old(enqueued) + NormalizeSamples(buf[..i])
      {
        pcmQueue := pcmQueue + [NormalizeSample(buf[i])];
        enqueued := enqueued + [NormalizeSample(buf[i])];
        assert NormalizeSamples(buf[..i + 1]) == NormalizeSamples(buf[..i]) + [NormalizeSample(buf[i])];
      }
      assert buf[..read] == buf[..read];
    }

    /**
     * Builds the next mel input: the overlap (zeros before the first chunk)
     * followed by the first 1280 queued samples, taken off the queue in
     * order; the overlap becomes the input's last 352 samples.
     */
    method TakeChunk() returns (melInput: array<real>)
      requires Valid() && |pcmQueue| >= CHUNK_SAMPLES
      modifies this`pcmQueue, this`pcmOverlapFilled, this`consumed, this`melInputs, pcmOverlap
      ensures Valid()
      ensures fresh(melInput) && melInput.Length == MEL_INPUT
      ensures melInput[..MEL_OVERLAP] ==
                if old(pcmOverlapFilled) == MEL_OVERLAP then old(pcmOverlap[..]) else Zeros(MEL_OVERLAP)
      ensures melInput[MEL_OVERLAP..] == old(pcmQueue)[..CHUNK_SAMPLES]
      ensures pcmQueue == old(pcmQueue)[CHUNK_SAMPLES..]
      ensures pcmOverlap[..] == melInput[CHUNK_SAMPLES..] && pcmOverlapFilled == MEL_OVERLAP
      ensures consumed == old(consumed) + old(pcmQueue)[..CHUNK_SAMPLES]
      ensures melInputs == old(melInputs) + [melInput[..]]
    {
      ghost var queue0, consumed0 := pcmQueue, consumed;
      melInput, pcmQueue := BuildMelInput(pcmOverlap, pcmOverlapFilled == MEL_OVERLAP, pcmQueue);
      ArrayCopy(melInput, MEL_INPUT - MEL_OVERLAP, pcmOverlap, 0, MEL_OVERLAP);
      assert pcmOverlap[..] == melInput[CHUNK_SAMPLES..];
      pcmOverlapFilled := MEL_OVERLAP;
      consumed := consumed0 + queue0[..CHUNK_SAMPLES];
      melInputs := melInputs + [melInput[..]];
      ChunkedStreamGrows(old(melInputs), consumed0, melInput[..], queue0[..CHUNK_SAMPLES]);
    }

    /** The settings this engine runs with. */
    function Cfg(): Config {
      Config(threshold, smoothWindow, seqLen)
    }

    ghost function Abstract(): Pipeline
      reads this, melRing, embRing
    {
      Pipeline(melRing.history, embRing.history, Smoothing(lastScores, lastFireAt), wakes, embedInputs, keywordInputs)
    }

    /**
     * `smoothAndMaybeFire(score)` at clock reading `now`: the smoothing state
     * steps as `Smooth` says, and `onWake` is dispatched exactly when it fires.
     */
    method SmoothAndMaybeFire(score: real, now: int)
      requires Valid()
      modifies this`lastScores, this`lastFireAt, this`wakes
      ensures Valid()
      ensures var step := Smooth(Smoothing(old(lastScores), old(lastFireAt)), smoothWindow, threshold, score, now);
              Smoothing(lastScores, lastFireAt) == step.state &&
              wakes == old(wakes) + (if step.fired then [now] else [])
    {
      if |lastScores| == smoothWindow {
        lastScores := lastScores[1..];
      }
      lastScores := lastScores + [score];
      assert lastScores == Admit(old(lastScores), smoothWindow, score);
      var avg := Mean(lastScores);
      if avg >= threshold && now - lastFireAt > COOLDOWN_MS {
        lastScores := [];
        lastFireAt := now;
        wakes := wakes + [now];
      }
    }

    /**
     * `pushMelFrames(mel, frames)`: pushes the `frames` frames of 32 values
     * laid out in `mel`, in order; the cursor advances by `frames` modulo 192
     * and the count saturates at 192.
     */
    method PushMelFrames(mel: array<real>, frames: nat)
      requires Valid() && mel != melRing.data && MEL_BANDS * frames <= mel.Length
      modifies melRing, melRing.data
      ensures Valid()
      ensures melRing.history == old(melRing.history) + MelFrames(mel[..], frames)
      ensures melRing.writeIdx == (old(melRing.writeIdx) + frames) % MEL_RING_CAP_FRAMES
      ensures melRing.count == Min(old(melRing.count) + frames, MEL_RING_CAP_FRAMES)
    {
      for f := 0 to frames
        modifies melRing, melRing.data
        invariant melRing.Valid()
        invariant melRing.history == old(melRing.history) + MelFrames(mel[..], f)
        invariant melRing.writeIdx == (old(melRing.writeIdx) + f) % MEL_RING_CAP_FRAMES
        invariant melRing.count == Min(old(melRing.count) + f, MEL_RING_CAP_FRAMES)
      {
        melRing.Push(mel, MEL_BANDS * f);
        MelFramesStep(mel[..], f);
        CursorStep(old(melRing.writeIdx) + f);
      }
    }

    /**
     * The embedding stage of one iteration, entered once the mel ring holds
     * 76 frames (`melCount >= MEL_FRAMES_FOR_EMBED`).
     */
    method EmbedAndClassify(ss: Sessions, now: int)
      requires Valid() && |melRing.history| >= MEL_FRAMES_FOR_EMBED
      modifies this`lastScores, this`lastFireAt, this`wakes, this`embedInputs, this`keywordInputs
      modifies embRing, embRing.data
      ensures Valid()
      ensures Abstract() == EmbedStep(old(Abstract()), Cfg(), ss, now)
    {
      ghost var p0 := Abstract();
      var melWindow := melRing.LastWindow(MEL_FRAMES_FOR_EMBED);
      embedInputs := embedInputs + [melWindow[..]];
      ghost var p1 := p0.(embedInputs := p0.embedInputs + [melWindow[..]]);
      assert Abstract() == p1;
      var emb := RunEmbed(ss, melWindow[..]);
      if |emb| == EMB_DIM {
        PushEmbedding(emb);
        ghost var p2 := p1.(embs := p0.embs + [emb]);
        assert Abstract() == p2;
        if embRing.count >= seqLen {
          Classify(ss, now);
        }
      }
    }

    /** `pushEmbedding(emb)`: one frame of 96 values into the embedding ring. */
    method PushEmbedding(emb: seq<real>)
      requires Valid() && |emb| == EMB_DIM
      modifies embRing, embRing.data
      ensures Valid()
      ensures embRing.history == old(embRing.history) + [emb]
      ensures embRing.count == Min(old(embRing.count) + 1, seqLen)
      ensures embRing.writeIdx == (old(embRing.writeIdx) + 1) % seqLen
    {
      var embArray := new real[EMB_DIM](i => if 0 <= i < |emb| then emb[i] else 0.0);
      assert embArray[0..EMB_DIM] == emb;
      embRing.Push(embArray, 0);
    }

    /**
     * Once `SEQ_LEN` embeddings are held: the classifier scores the last
     * `SEQ_LEN` of them, in push order, and the score is smoothed.
     */
    method Classify(ss: Sessions, now: int)
      requires Valid() && embRing.count >= seqLen
      modifies this`lastScores, this`lastFireAt, this`wakes, this`keywordInputs
      ensures Valid()
      ensures |embRing.history| >= seqLen
      ensures var input := Flatten(LastN(embRing.history, seqLen));
              var step := Smooth(Smoothing(old(lastScores), old(lastFireAt)), smoothWindow, threshold, RunKeyword(ss, input), now);
              && keywordInputs == old(keywordInputs) + [input]
              && Smoothing(lastScores, lastFireAt) == step.state
              && wakes == old(wakes) + (if step.fired then [now] else [])
    {
      var window := embRing.LastWindow(seqLen);
      keywordInputs := keywordInputs + [window[..]];
      var score := RunKeyword(ss, window[..]);
      SmoothAndMaybeFire(score, now);
    }

    /**
     * One iteration of the drain loop: the next chunk is taken, the mel
     * session runs on it, and its frames, normalised in place, go through
     * the rings as `ChunkStep` says.
     */
    method ProcessChunk(ss: Sessions, now: int)
      requires Valid() && |pcmQueue| >= CHUNK_SAMPLES
      modifies this, pcmOverlap, melRing, melRing.data, embRing, embRing.data
      ensures Valid()
      ensures pcmQueue == old(pcmQueue)[CHUNK_SAMPLES..] && enqueued == old(enqueued)
      ensures |melInputs| == |old(melInputs)| + 1 && melInputs[..|old(melInputs)|] == old(melInputs)
      ensures Abstract() == ChunkStep(old(Abstract()), Cfg(), ss, melInputs[|melInputs| - 1], now)
    {
      var melInput := TakeChunk();
      ConsumeMel(ss, melInput[..], now);
    }

    /**
     * The rest of one iteration once its mel input is built: the mel session
     * runs; without a frame nothing more happens; otherwise the frames,
     * normalised in place, are pushed and the embedding stage runs once 76
     * frames are held.
     */
    method ConsumeMel(ss: Sessions, input: seq<real>, now: int)
      requires Valid()
      modifies this`lastScores, this`lastFireAt, this`wakes, this`embedInputs, this`keywordInputs
      modifies melRing, melRing.data, embRing, embRing.data
      ensures Valid()
      ensures Abstract() == ChunkStep(old(Abstract()), Cfg(), ss, input, now)
    {
      ghost var p0 := Abstract();
      var melOut := RunMel(ss, input);
      var frames := |melOut| / MEL_BANDS;
      if frames == 0 {
        return;
      }
      var mel := new real[|melOut|](i => if 0 <= i < |melOut| then melOut[i] else 0.0);
      assert mel[..] == melOut;
      NormalizeInPlace(mel);
      PushMelFrames(mel, frames);
      ghost var p1 := p0.(mels := p0.mels + MelFrames(NormalizeMel(melOut), frames));
      assert Abstract() == p1;
      if melRing.count >= MEL_FRAMES_FOR_EMBED {
        EmbedAndClassify(ss, now);
      }
    }

    /**
     * The inner `while (pcmQueue.size >= CHUNK_SAMPLES)` loop: takes every
     * whole chunk off the queue, in order, and keeps the partial rest.
     */
    method Drain(ss: Sessions, now: int)
      requires Valid()
      modifies this, pcmOverlap, melRing, melRing.data, embRing, embRing.data
      ensures Valid()
      ensures enqueued == old(enqueued) && |pcmQueue| < CHUNK_SAMPLES
      ensures var k := |old(pcmQueue)| / CHUNK_SAMPLES;
              && pcmQueue == old(pcmQueue)[CHUNK_SAMPLES * k..]
              && |melInputs| == |old(melInputs)| + k
      ensures |old(melInputs)| <= |melInputs| && melInputs[..|old(melInputs)|] == old(melInputs)
      ensures Abstract() == ChunkSteps(old(Abstract()), Cfg(), ss, melInputs[|old(melInputs)|..], now)
    {
      ghost var n0 := |melInputs|;
      while |pcmQueue| >= CHUNK_SAMPLES
        invariant Valid()
        invariant enqueued == old(enqueued)
        invariant n0 <= |melInputs| && melInputs[..n0] == old(melInputs)
        invariant CHUNK_SAMPLES * (|melInputs| - n0) <= |old(pcmQueue)|
        invariant pcmQueue == old(pcmQueue)[CHUNK_SAMPLES * (|melInputs| - n0)..]
        invariant Abstract() == ChunkSteps(old(Abstract()), Cfg(), ss, melInputs[n0..], now)
        decreases |pcmQueue|
      {
        ghost var before := melInputs;
        ProcessChunk(ss, now);
        assert melInputs[n0..][..|melInputs[n0..]| - 1] == before[n0..];
      }
      WholeChunks(|old(pcmQueue)|, |melInputs| - n0);
    }

    /**
     * One pass of the outer loop after `read` samples arrived in `buf`:
     * nothing for `read <= 0`, else the samples are queued and every whole
     * chunk is processed, at clock reading `now`.
     */
    method OnRead(buf: array<int16>, read: int, ss: Sessions, now: int)
      requires Valid() && buf.Length == CHUNK_SAMPLES && read <= buf.Length
      requires |pcmQueue| < CHUNK_SAMPLES
      modifies this, pcmOverlap, melRing, melRing.data, embRing, embRing.data
      ensures Valid() && |pcmQueue| < CHUNK_SAMPLES
      ensures read <= 0 ==> pcmQueue == old(pcmQueue) && melInputs == old(melInputs) && Abstract() == old(Abstract())
      ensures read > 0 ==> enqueued == old(enqueued) + NormalizeSamples(buf[..read])
      ensures |old(melInputs)| <= |melInputs| <= |old(melInputs)| + 1
      ensures melInputs[..|old(melInputs)|] == old(melInputs)
      ensures Abstract() == ChunkSteps(old(Abstract()), Cfg(), ss, melInputs[|old(melInputs)|..], now)
      ensures wakes == old(wakes) || wakes == old(wakes) + [now]
    {
      if read <= 0 {
        assert melInputs[|melInputs|..] == [];
        return;
      }
      ghost var p0 := Abstract();
      Enqueue(buf, read);
      assert |pcmQueue| < 2 * CHUNK_SAMPLES;
      Drain(ss, now);
      ghost var chunks := melInputs[|old(melInputs)|..];
      AtMostOneWakePerRead(p0, Cfg(), ss, chunks, now);
      assert Abstract() == ChunkSteps(p0, Cfg(), ss, chunks, now);
    }
  }

  /**
   * The mel input of one chunk: the overlap when it is filled (zeros
   * before), then 1280 samples removed one by one from the queue's front.
   */
  method BuildMelInput(overlap: array<real>, filled: bool, queue: seq<real>)
      returns (melInput: array<real>, rest: seq<real>)
    requires overlap.Length == MEL_OVERLAP && |queue| >= CHUNK_SAMPLES
    ensures fresh(melInput) && melInput.Length == MEL_INPUT
    ensures melInput[..MEL_OVERLAP] == if filled then overlap[..] else Zeros(MEL_OVERLAP)
    ensures melInput[MEL_OVERLAP..] == queue[..CHUNK_SAMPLES]
    ensures rest == queue[CHUNK_SAMPLES..]
  {
    melInput := new real[MEL_INPUT](_ => 0.0);
    if filled {
      ArrayCopy(overlap, 0, melInput, 0, MEL_OVERLAP);
    }
    assert melInput[..MEL_OVERLAP] == if filled then overlap[..] else Zeros(MEL_OVERLAP);
    ghost var head := melInput[..MEL_OVERLAP];
    rest := queue;
    for i := 0 to CHUNK_SAMPLES
      modifies melInput
      invariant rest == queue[i..]
      invariant melInput[..MEL_OVERLAP] == head
      invariant melInput[MEL_OVERLAP..MEL_OVERLAP + i] == queue[..i]
    {
      melInput[MEL_OVERLAP + i] := rest[0];
      rest := rest[1..];
    }
    assert melInput[MEL_OVERLAP..] == melInput[MEL_OVERLAP..MEL_OVERLAP + CHUNK_SAMPLES];
  }

  /** `melOut[i] = (melOut[i] / 10f) + 2f` for every index. */
  method NormalizeInPlace(mel: array<real>)
    modifies mel
    ensures mel[..] == NormalizeMel(old(mel[..]))
  {
    for i := 0 to mel.Length
      invariant forall j | 0 <= j < i :: mel[j] == old(mel[j]) / 10.0 + 2.0
      invariant forall j | i <= j < mel.Length :: mel[j] == old(mel[j])
    {
      mel[i] := mel[i] / 10.0 + 2.0;
    }
  }

  /** A queue of `len` samples that leaves fewer than 1280 after `k` whole chunks holds `len / 1280` of them. */
  lemma WholeChunks(len: nat, k: nat)
    requires CHUNK_SAMPLES * k <= len < CHUNK_SAMPLES * k + CHUNK_SAMPLES
    ensures len / CHUNK_SAMPLES == k
  {
  }

  /** Appending a chunk built from the previous input's tail keeps the stream well formed. */
  lemma ChunkedStreamGrows(inputs: seq<seq<real>>, consumed: seq<real>, next: seq<real>, chunk: seq<real>)
    requires ChunkedStream(inputs, consumed)
    requires |next| == MEL_INPUT && |chunk| == CHUNK_SAMPLES && next[MEL_OVERLAP..] == chunk
    requires next[..MEL_OVERLAP] ==
               if inputs == [] then Zeros(MEL_OVERLAP) else inputs[|inputs| - 1][CHUNK_SAMPLES..]
    ensures ChunkedStream(inputs + [next], consumed + chunk)
  {
    var all := consumed + chunk;
    var ins := inputs + [next];
    forall c | 0 <= c < |ins|
      ensures ins[c][MEL_OVERLAP..] == all[CHUNK_SAMPLES * c..CHUNK_SAMPLES * c + CHUNK_SAMPLES]
    {
      if c < |inputs| {
        assert all[CHUNK_SAMPLES * c..CHUNK_SAMPLES * c + CHUNK_SAMPLES]
            == consumed[CHUNK_SAMPLES * c..CHUNK_SAMPLES * c + CHUNK_SAMPLES];
      } else {
        assert all[CHUNK_SAMPLES * c..CHUNK_SAMPLES * c + CHUNK_SAMPLES] == chunk;
      }
    }
  }
}
