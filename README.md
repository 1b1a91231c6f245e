# Camtellect core, modelled in Dafny

Camtellect is an Android app that connects a phone to an IP Webcam camera and to a realtime voice and video assistant. This project models the app's core decisions and algorithms, and proves properties of them:

- **Wake-word engine** (`OpenWakeWordEngine`).
  - 16-bit microphone samples are normalised and queued. They are cut into 1280-sample chunks, each prefixed by the previous chunk's last 352 samples.
  - A mel session turns each chunk into frames of 32 bands. Those go through `(x / 10) + 2` into a 192-frame ring.
  - Once 76 frames are held, each chunk yields one 96-value embedding from the last 76 frames, after all of that chunk's frames are pushed. Embeddings go into a ring of `SEQ_LEN`.
  - Once `SEQ_LEN` embeddings are held, the classifier's score is smoothed over a window and fires `onWake`, subject to a 600 ms cooldown.
  - `SEQ_LEN` is derived from the classifier's input shape. The ONNX output tree is flattened.
- **Outgoing video** (`RealtimePeer`).
  - Switching between the device camera and a wireless camera, and the choice of device camera.
  - The snapshot URL built from the user's address.
  - The ARGB-to-I420 conversion, using an integer approximation of the limited-range ITU-R BT.601 equations.
- **Realtime call** (`RealtimeSessionManager`).
  - The connection state machine and the mute toggles.
  - The signalling messages: an answer, and ICE candidates in both directions.
  - The choice of camera capturer.
- **Session request** (`RealtimeSessionRepository`): the JSON payload posted to the session endpoint, and the decoding of its answer.
- **Wake-word service** (`WakeWordService`): the snapshot URL fetched when the wake word fires, and the reduction of the server's reply.
- **Camera wizard** (`ConnectCameraWizard`): its steps, the local subnet base, and the scan of hosts 1 to 254.

How the source's constructs are modelled:

- **Kotlin classes that update fields in place** are Dafny classes with `modifies` clauses: `FrameRing`, `Engine`, `Peer`, `SessionManager` and `Wizard`.
- **The engine's flat float buffers** are arrays. Each operation is proved against a specification function of the old state:
  - ring contents: `FrameRing.history`, `LastN` and `Flatten`;
  - one chunk: `ChunkStep`;
  - one score: `Smooth`.
- **Pure logic** is functions and lemmas: URL building, decoding, transition functions and scans.
- **org.json** is modelled as follows:
  - `JSONObject` is an ordered member list;
  - `put` of a new key appends it, `put` of an existing key replaces its value in place, and `put` of null removes the key;
  - `optString` gives the value's `toString()`.
- **`Long.toInt()`, `shr` and the `Int` arithmetic of the shape-to-`SEQ_LEN` derivation and the I420 conversion** are written out explicitly. Elsewhere integers are unbounded, and each place where that matters is listed under "## Left out".

One point where the code decides against a plain reading of its intent: `parseReplyPayloadForService` returns `optString("reply", null)`. In Android's org.json this is the text `"null"` for a JSON null, not a Kotlin null. The model follows the code (`WakeWordService.NullReplyWins`).

## Model

Source paths are relative to the repository root.

| member | source | states |
|---|---|---|
| Common.ToInt32 | app/src/main/java/com/example/camtellect/OpenWakeWordEngine.kt:92 | `Long.toInt()` yields a 32-bit value congruent to the input modulo 2^32, and the input itself when it already fits |
| Text.TrimStart | app/src/main/java/com/example/camtellect/RealtimePeer.kt:173 | trimming keeps a suffix, drops only characters of the set, and stops at the first character outside it |
| Text.TrimEnd | app/src/main/java/com/example/camtellect/RealtimePeer.kt:176-181 | `trimEnd('/')` keeps a prefix, drops only characters of the set, and the result does not end in one |
| Text.JoinSplit | app/src/main/java/com/example/camtellect/ConnectCameraWizard.kt:210 | `split(".")` loses nothing: joining the pieces gives the address back |
| Text.SplitJoin | app/src/main/java/com/example/camtellect/ConnectCameraWizard.kt:211 | splitting a join of dot-free pieces gives the pieces back |
| Text.IntToStringRoundTrip | app/src/main/java/com/example/camtellect/ConnectCameraWizard.kt:190 | the decimal text of any integer reads back as that integer |
| Text.IntToStringInjective | app/src/main/java/com/example/camtellect/ConnectCameraWizard.kt:190 | different integers print differently |
| Json.Opt | app/src/main/java/com/example/camtellect/realtime/RealtimeSessionRepository.kt:85 | `opt(name)` finds a value exactly when the key is present |
| Json.Put | app/src/main/java/com/example/camtellect/realtime/RealtimeSessionRepository.kt:42-52 | `put` of a new key appends it; `put` of an existing key keeps the key order |
| Json.PutRead | app/src/main/java/com/example/camtellect/realtime/RealtimeSessionRepository.kt:42-52 | after `put(k, v)`, `k` reads `v` and every other key reads as before |
| Json.PutNewKey | app/src/main/java/com/example/camtellect/realtime/RealtimeSessionRepository.kt:42-52 | putting a key not yet present appends exactly that member |
| Json.PutThree | app/src/main/java/com/example/camtellect/realtime/RealtimeSessionRepository.kt:42-52 | three puts of distinct keys build exactly those three members, in order |
| Json.OptOfThree | app/src/main/java/com/example/camtellect/realtime/RealtimeSessionRepository.kt:42-52 | with distinct keys, each of three members reads back its own value |
| Json.RemoveRead | app/src/main/java/com/example/camtellect/realtime/RealtimeSessionManager.kt:462-463 | after removal the key is absent and every other key reads as before |
| Json.PutOrRemoveRead | app/src/main/java/com/example/camtellect/realtime/RealtimeSessionManager.kt:462-463 | `put(k, null)` leaves `k` absent, `put(k, v)` makes it read `v`; other keys are unaffected |
| Json.OptStringOr | app/src/main/java/com/example/camtellect/realtime/RealtimeSessionRepository.kt:78-79 | `optString(k, fallback)` is the value's text when `k` is present, else the fallback |
| Json.OptInt | app/src/main/java/com/example/camtellect/realtime/RealtimeSessionManager.kt:441 | `optInt` always yields a 32-bit value: a number's `intValue()`, a decimal string saturated at the `Int` range, else 0 |
| OnnxOutput.RecAppendsLeaves | app/src/main/java/com/example/camtellect/OpenWakeWordEngine.kt:365-370 | the recursive `rec` appends exactly the float leaves of its argument, left to right |
| OnnxOutput.RecEachAppendsLeaves | app/src/main/java/com/example/camtellect/OpenWakeWordEngine.kt:368 | `forEach { rec(it) }` appends the leaves of every child, in order |
| OnnxOutput.LeavesOfAppend | app/src/main/java/com/example/camtellect/OpenWakeWordEngine.kt:368 | the leaves of a concatenation of children are the concatenation of their leaves |
| OnnxOutput.FlattenOnnxIsLeaves | app/src/main/java/com/example/camtellect/OpenWakeWordEngine.kt:360-376 | a float array is returned as is, a nested array as its leaves in order, anything else as empty |
| OnnxOutput.FlattenOfRows | app/src/main/java/com/example/camtellect/OpenWakeWordEngine.kt:363-373 | a `[1, n]`-style output of two rows flattens to the rows one after the other |
| OnnxOutput.FlattenSkipsOther | app/src/main/java/com/example/camtellect/OpenWakeWordEngine.kt:366-369 | children that are neither float nor object arrays contribute nothing |
| OnnxOutput.SeqLenAsWrittenCanBeZero | app/src/main/java/com/example/camtellect/OpenWakeWordEngine.kt:92 | the shape `[1, 2^32, 96]` passes the `> 0` test but yields `SEQ_LEN` 0 |
| OnnxOutput.SeqLen | app/src/main/java/com/example/camtellect/OpenWakeWordEngine.kt:90-93 | `SEQ_LEN` is positive and `SEQ_LEN * 96` fits an `Int`: the second dimension of an accepted shape, else 16 |
| OnnxOutput.SeqLenAgreesInRange | app/src/main/java/com/example/camtellect/OpenWakeWordEngine.kt:90-93 | on shapes whose dimensions fit an `Int`, the corrected derivation equals the written one exactly when the written ring size `SEQ_LEN * 96` does not overflow |
| OnnxOutput.EmbRingAsWrittenWraps | app/src/main/java/com/example/camtellect/OpenWakeWordEngine.kt:90-94 | the written ring size `SEQ_LEN * EMB_DIM` wraps: shape `[1, 44739243, 96]` gives a 32-float ring, and `[1, 30000000, 96]` a negative size |
| OnnxOutput.Clamp01 | app/src/main/java/com/example/camtellect/OpenWakeWordEngine.kt:165 | `coerceIn(0f, 1f)` lands in [0, 1], is the identity there, and maps below to 0 and above to 1 |
| OnnxOutput.KeywordScore | app/src/main/java/com/example/camtellect/OpenWakeWordEngine.kt:261-263 | the score lies in [0, 1]: 0 for an empty output, else the first value clamped |
| ScoreSmoothing.Admit | app/src/main/java/com/example/camtellect/OpenWakeWordEngine.kt:320-321 | the new score ends the window and the window never grows past `smoothWindow` |
| ScoreSmoothing.Smooth | app/src/main/java/com/example/camtellect/OpenWakeWordEngine.kt:319-331 | a firing clears the window, records `now` and needs more than 600 ms since the last one; otherwise only the window moves |
| ScoreSmoothing.MeanWithin | app/src/main/java/com/example/camtellect/OpenWakeWordEngine.kt:322 | the average of scores in [lo, hi] lies in [lo, hi] |
| ScoreSmoothing.FiringNeedsHighScore | app/src/main/java/com/example/camtellect/OpenWakeWordEngine.kt:322-327 | no firing unless some score in the window reached the threshold |
| ScoreSmoothing.FirstScoreFires | app/src/main/java/com/example/camtellect/OpenWakeWordEngine.kt:66-67 | from the initial state, the first score fires exactly when it reaches the threshold |
| ScoreSmoothing.CooldownExample | app/src/main/java/com/example/camtellect/OpenWakeWordEngine.kt:319-331 | with window 3 and threshold 0.015, a 0.02 fires and a second one 100 ms later is suppressed |
| ScoreSmoothing.RunSpaced | app/src/main/java/com/example/camtellect/OpenWakeWordEngine.kt:327-329 | over any run of scores, consecutive firings are more than 600 ms apart and `lastFireAt` is the last firing |
| ScoreSmoothing.SpacedAppend | app/src/main/java/com/example/camtellect/OpenWakeWordEngine.kt:327-329 | a firing more than 600 ms after the last one keeps the firings spaced |
| ScoreSmoothing.DebounceBound | app/src/main/java/com/example/camtellect/OpenWakeWordEngine.kt:326-329 | readings within `[t0, t1]` fire at most `(t1 - t0) / 600 + 1` times, whatever the scores |
| ScoreSmoothing.FiresWithin | app/src/main/java/com/example/camtellect/OpenWakeWordEngine.kt:326-329 | every firing lies within the time span `[t0, t1]` of the readings |
| ScoreSmoothing.AdmitLastUpTo | app/src/main/java/com/example/camtellect/OpenWakeWordEngine.kt:320-321 | admitting a score to the last `window` scores gives the last `window` scores of the longer list |
| ScoreSmoothing.RunWindow | app/src/main/java/com/example/camtellect/OpenWakeWordEngine.kt:320-321 | between firings the window holds exactly the last `smoothWindow` scores |
| FrameRings.ArrayCopy | app/src/main/java/com/example/camtellect/OpenWakeWordEngine.kt:272 | `System.arraycopy` writes exactly the target range from the source range and nothing else |
| FrameRings.FlattenLength | app/src/main/java/com/example/camtellect/OpenWakeWordEngine.kt:279 | n frames of `width` values flatten to `n * width` values, the size of the window buffer |
| FrameRings.FrameRing.constructor | app/src/main/java/com/example/camtellect/OpenWakeWordEngine.kt:55-63 | a zeroed ring of `capacity * width` values with cursor and count at 0 |
| FrameRings.FrameRing.Push | app/src/main/java/com/example/camtellect/OpenWakeWordEngine.kt:296-301 | one frame enters the history; the cursor advances modulo the capacity; the count saturates at the capacity; no other slot changes |
| FrameRings.FrameRing.FramesOf | app/src/main/java/com/example/camtellect/OpenWakeWordEngine.kt:270-272 | the k-th most recent held slot holds the k-th most recent frame pushed |
| FrameRings.FrameRing.PushKeepsFrames | app/src/main/java/com/example/camtellect/OpenWakeWordEngine.kt:270-274 | after a push the new frame sits at the old cursor and older held frames stay where they were |
| FrameRings.FrameRing.LastWindow | app/src/main/java/com/example/camtellect/OpenWakeWordEngine.kt:278-294 | the window is the `n` most recent slots oldest first, and, once `n` frames are held, exactly the last `n` frames pushed |
| FrameRings.FrameRing.CopyContiguous | app/src/main/java/com/example/camtellect/OpenWakeWordEngine.kt:282-285 | one copy from slot `start` yields the window |
| FrameRings.FrameRing.CopyWrapped | app/src/main/java/com/example/camtellect/OpenWakeWordEngine.kt:286-293 | the tail of the buffer followed by its head yields the window |
| FrameRings.FrameRing.ContiguousWindow | app/src/main/java/com/example/camtellect/OpenWakeWordEngine.kt:307-309 | a contiguous copy of `n` frames before the cursor is the window |
| FrameRings.FrameRing.WrappedWindow | app/src/main/java/com/example/camtellect/OpenWakeWordEngine.kt:310-315 | a window straddling the end of the buffer, read in two parts, is the window |
| FrameRings.FrameRing.WindowIsLastN | app/src/main/java/com/example/camtellect/OpenWakeWordEngine.kt:303-317 | a window read from a ring holding at least `n` frames lays out the last `n` frames pushed |
| WakeWordEngine.NormalizeSampleExact | app/src/main/java/com/example/camtellect/OpenWakeWordEngine.kt:119 | the clamp never bites: every `Short` maps to `s / 32768`, in [-1, 1) |
| WakeWordEngine.NormalizeSamples | app/src/main/java/com/example/camtellect/OpenWakeWordEngine.kt:118-120 | one normalised sample per sample read, in order |
| WakeWordEngine.NormalizeMel | app/src/main/java/com/example/camtellect/OpenWakeWordEngine.kt:151 | every mel value `x` becomes `x / 10 + 2` |
| WakeWordEngine.MelFrames | app/src/main/java/com/example/camtellect/OpenWakeWordEngine.kt:267-269 | frame `f` of the mel output is values `32f` to `32f + 31` |
| WakeWordEngine.MelFramesStep | app/src/main/java/com/example/camtellect/OpenWakeWordEngine.kt:268-272 | each loop iteration adds the next 32 values as one frame |
| WakeWordEngine.FreshPartsReassemble | app/src/main/java/com/example/camtellect/OpenWakeWordEngine.kt:123-143 | the fresh 1280 samples of the chunks, concatenated, are exactly the samples consumed |
| WakeWordEngine.InputIsSlidingWindow | app/src/main/java/com/example/camtellect/OpenWakeWordEngine.kt:124-143 | the first mel input is 352 zeros and 1280 samples; every later one is the 1632 consecutive samples ending with its chunk |
| WakeWordEngine.ChunkedStreamGrows | app/src/main/java/com/example/camtellect/OpenWakeWordEngine.kt:128-143 | a chunk built from the previous input's tail keeps the stream of inputs a sliding window |
| WakeWordEngine.EmbeddingGate | app/src/main/java/com/example/camtellect/OpenWakeWordEngine.kt:146-159 | no frame changes nothing; otherwise the normalised frames are appended, and an embedding runs exactly once 76 are held, on the last 76 |
| WakeWordEngine.ClassifierGate | app/src/main/java/com/example/camtellect/OpenWakeWordEngine.kt:157-168 | only a 96-value embedding is pushed; the classifier runs only once `SEQ_LEN` are held, on the last `SEQ_LEN`; without it the smoothing state and wakes stay |
| WakeWordEngine.EmbedStepShape | app/src/main/java/com/example/camtellect/OpenWakeWordEngine.kt:157-161 | every held mel frame stays 32 wide and every embedding 96 |
| WakeWordEngine.ChunkStepWakes | app/src/main/java/com/example/camtellect/OpenWakeWordEngine.kt:163-166 | a chunk either leaves the wakes alone or appends `now`, more than 600 ms after the previous firing |
| WakeWordEngine.ChunkStepKeepsWakesSpaced | app/src/main/java/com/example/camtellect/OpenWakeWordEngine.kt:123-170 | whatever the sessions return, the `onWake` dispatches stay more than 600 ms apart |
| WakeWordEngine.AtMostOneWakePerRead | app/src/main/java/com/example/camtellect/OpenWakeWordEngine.kt:112-170 | a read yields at most one chunk, so it dispatches `onWake` at most once, at that chunk's clock reading |
| WakeWordEngine.BuildMelInput | app/src/main/java/com/example/camtellect/OpenWakeWordEngine.kt:124-136 | the mel input is the overlap (zeros before it is filled) followed by the queue's first 1280 samples, which leave the queue |
| WakeWordEngine.NormalizeInPlace | app/src/main/java/com/example/camtellect/OpenWakeWordEngine.kt:151 | the in-place loop leaves the buffer equal to `NormalizeMel` of its old contents |
| WakeWordEngine.Engine.constructor | app/src/main/java/com/example/camtellect/OpenWakeWordEngine.kt:35-68 | empty queue, unfilled overlap, empty rings (the embedding ring sized by the corrected `SEQ_LEN`, `SEQ_LEN * 96` floats within the `Int` range), empty window and `lastFireAt` 0 |
| WakeWordEngine.Engine.Enqueue | app/src/main/java/com/example/camtellect/OpenWakeWordEngine.kt:115-120 | a read of `read > 0` samples appends their normalised values to the queue; `read <= 0` changes nothing |
| WakeWordEngine.Engine.TakeChunk | app/src/main/java/com/example/camtellect/OpenWakeWordEngine.kt:124-143 | the input is overlap plus the next 1280 samples; they leave the queue; the overlap becomes the input's last 352 values |
| WakeWordEngine.Engine.SmoothAndMaybeFire | app/src/main/java/com/example/camtellect/OpenWakeWordEngine.kt:319-331 | the window and `lastFireAt` become those `Smooth` gives, and `now` joins the wakes exactly when it fires |
| WakeWordEngine.Engine.PushMelFrames | app/src/main/java/com/example/camtellect/OpenWakeWordEngine.kt:266-276 | the `frames` frames enter the mel ring in order; cursor and count advance by `frames` (mod 192, up to 192) |
| WakeWordEngine.Engine.PushEmbedding | app/src/main/java/com/example/camtellect/OpenWakeWordEngine.kt:296-301 | one embedding enters the ring; cursor and count advance by one modulo and up to `SEQ_LEN` |
| WakeWordEngine.Engine.Classify | app/src/main/java/com/example/camtellect/OpenWakeWordEngine.kt:163-167 | the classifier sees the last `SEQ_LEN` embeddings in push order and its score is smoothed |
| WakeWordEngine.Engine.EmbedAndClassify | app/src/main/java/com/example/camtellect/OpenWakeWordEngine.kt:157-168 | the engine's abstract state moves exactly as `EmbedStep` says |
| WakeWordEngine.Engine.ProcessChunk | app/src/main/java/com/example/camtellect/OpenWakeWordEngine.kt:123-169 | one chunk leaves the queue and the abstract state moves as `ChunkStep` says for that chunk's mel input |
| WakeWordEngine.Engine.ConsumeMel | app/src/main/java/com/example/camtellect/OpenWakeWordEngine.kt:145-168 | no mel frame changes nothing; otherwise the normalised frames and the embedding stage move the abstract state as `ChunkStep` says for that input |
| WakeWordEngine.Engine.Drain | app/src/main/java/com/example/camtellect/OpenWakeWordEngine.kt:123-170 | every whole chunk (`len / 1280` of them) is processed in order and fewer than 1280 samples remain |
| WakeWordEngine.Engine.OnRead | app/src/main/java/com/example/camtellect/OpenWakeWordEngine.kt:112-170 | reading into the `CHUNK_SAMPLES` buffer with less than a chunk queued: a failed read changes nothing; otherwise the samples are queued and drained, as `ChunkSteps` says, at most one chunk is processed, at most one wake is added, and less than a chunk stays queued |
| FrameUrls.FrameUrlHasShot | app/src/main/java/com/example/camtellect/RealtimePeer.kt:173-188 | whatever the address, the URL polled contains `/shot.jpg`, ignoring case |
| FrameUrls.RewriteHasShot | app/src/main/java/com/example/camtellect/RealtimePeer.kt:182-188 | each branch of the path rewrite leaves `/shot.jpg` in the URL |
| FrameUrls.BareAddressUrl | app/src/main/java/com/example/camtellect/RealtimePeer.kt:173-188 | a bare address, padded or not, becomes `http://` + address (+ `:8080` without a port) + `/shot.jpg` |
| FrameUrls.BareHostUrl | app/src/main/java/com/example/camtellect/RealtimePeer.kt:177-188 | the same for an already trimmed address |
| FrameUrls.HostBase | app/src/main/java/com/example/camtellect/RealtimePeer.kt:177-181 | a bare address gets the scheme and, without a port, `:8080`; no slash is trimmed |
| FrameUrls.HostUrlGetsShot | app/src/main/java/com/example/camtellect/RealtimePeer.kt:187 | `http://` + host characters takes the append branch |
| FrameUrls.NoShotInHostUrl | app/src/main/java/com/example/camtellect/RealtimePeer.kt:186 | `http://` + host characters does not contain `/shot.jpg` |
| FrameUrls.NoSchemeWithoutColon | app/src/main/java/com/example/camtellect/RealtimePeer.kt:174 | text without `:` has no `://` |
| FrameUrls.NoSchemeWithoutSlash | app/src/main/java/com/example/camtellect/RealtimePeer.kt:174 | host characters alone never contain `://` |
| FrameUrls.LastNotLetter | app/src/main/java/com/example/camtellect/RealtimePeer.kt:183-185 | a host URL ends neither in `/video` nor in `/shot.jpg` |
| FrameUrls.HttpHasScheme | app/src/main/java/com/example/camtellect/RealtimePeer.kt:174 | an `http://` address counts as having a scheme |
| FrameUrls.HttpTrimmed | app/src/main/java/com/example/camtellect/RealtimePeer.kt:173 | an address starting with `h` and ending in `/` is its own trim |
| FrameUrls.NoWhitespaceAtEnds | app/src/main/java/com/example/camtellect/RealtimePeer.kt:173 | a string without whitespace at its ends is its own trim |
| FrameUrls.SchemeAddressBase | app/src/main/java/com/example/camtellect/RealtimePeer.kt:175-181 | an address with a scheme loses only its trailing slashes |
| FrameUrls.VideoAddressRewritten | app/src/main/java/com/example/camtellect/RealtimePeer.kt:183-184 | `http://10.0.0.2:8080/video/` is polled at `http://10.0.0.2:8080/shot.jpg` |
| FrameUrls.VideoPathRewritten | app/src/main/java/com/example/camtellect/RealtimePeer.kt:183-184 | a trailing `/video` is replaced by `/shot.jpg` |
| FrameUrls.ShotAddressKept | app/src/main/java/com/example/camtellect/RealtimePeer.kt:185 | an address naming the snapshot, in any case, is kept without trailing slashes |
| FrameUrls.ShotPathKept | app/src/main/java/com/example/camtellect/RealtimePeer.kt:185 | a URL ending in `/shot.jpg`, in any case, is not rewritten |
| I420.ChannelsRecompose | app/src/main/java/com/example/camtellect/RealtimePeer.kt:266-268 | the three channels are bytes and recompose the colour's low 24 bits |
| I420.Shr8 | app/src/main/java/com/example/camtellect/RealtimePeer.kt:270-272 | `shr 8` on an `Int` is floor division by 256 |
| I420.ClampToByte | app/src/main/java/com/example/camtellect/RealtimePeer.kt:286 | a value already in 0..255 is stored unchanged |
| I420.ClampIsNearest | app/src/main/java/com/example/camtellect/RealtimePeer.kt:286 | the clamp picks the byte nearest to the value |
| I420.LumaRange | app/src/main/java/com/example/camtellect/RealtimePeer.kt:270 | for 8-bit channels Y lies in the limited range 16..235 |
| I420.ChromaRange | app/src/main/java/com/example/camtellect/RealtimePeer.kt:271-272 | for 8-bit channels U and V lie in 16..240 |
| I420.GreyLevels | app/src/main/java/com/example/camtellect/RealtimePeer.kt:270-272 | black maps to 16, white to 235, and greys carry chroma 128 |
| I420.ClampIsIdentity | app/src/main/java/com/example/camtellect/RealtimePeer.kt:274-278 | the clamp never changes a pixel's Y, U or V |
| I420.BitmapToVideoFrame | app/src/main/java/com/example/camtellect/RealtimePeer.kt:242-284 | a bitmap without pixels is refused; otherwise Y holds every pixel's luma and U, V the chroma of every 2x2 block's top-left pixel |
| I420.FillPlanes | app/src/main/java/com/example/camtellect/RealtimePeer.kt:259-281 | after the nested loops the three planes are complete |
| I420.NextRow | app/src/main/java/com/example/camtellect/RealtimePeer.kt:259-263 | one outer iteration extends the converted rows by one |
| I420.RowBounds | app/src/main/java/com/example/camtellect/RealtimePeer.kt:260-263 | a row's offsets in the Y and chroma planes are non-negative and the row fits its plane |
| I420.RowStep | app/src/main/java/com/example/camtellect/RealtimePeer.kt:259-281 | writing row `row` turns "rows before `row` done" into "rows before `row + 1` done" |
| I420.ConvertRow | app/src/main/java/com/example/camtellect/RealtimePeer.kt:264-280 | the inner loop writes the row's luma, and on even rows its chroma row, and nothing else |
| I420.LumaStep | app/src/main/java/com/example/camtellect/RealtimePeer.kt:274 | one column's luma write extends the written row by one |
| I420.ChromaStep | app/src/main/java/com/example/camtellect/RealtimePeer.kt:275-279 | a column writes a chroma sample only when row and column are both even, extending the chroma row by that sample |
| I420.LumaRowsAfter | app/src/main/java/com/example/camtellect/RealtimePeer.kt:260-274 | rows done plus a written row is one more row done |
| I420.ChromaRowsAfter | app/src/main/java/com/example/camtellect/RealtimePeer.kt:262-279 | the chroma rows done grow by the even row's chroma row |
| I420.EarlierChromaRowKept | app/src/main/java/com/example/camtellect/RealtimePeer.kt:262 | writing a row keeps every chroma row finished before it |
| I420.WrittenChromaRow | app/src/main/java/com/example/camtellect/RealtimePeer.kt:275-278 | on an even row, chroma row `row / 2` holds the samples of the row's even columns |
| CaptureSource.FirstFacing | app/src/main/java/com/example/camtellect/RealtimePeer.kt:140-141 | `firstOrNull` finds the first camera of the facing, and none only when there is none |
| CaptureSource.PickCamera | app/src/main/java/com/example/camtellect/RealtimePeer.kt:140-147 | the chosen camera is one of the devices |
| CaptureSource.PickCameraChoice | app/src/main/java/com/example/camtellect/RealtimePeer.kt:140-147 | preferred facing first, else the opposite, else the first camera; none only without cameras |
| CaptureSource.PickedFacing | app/src/main/java/com/example/camtellect/RealtimePeer.kt:140-165 | when a camera of the requested facing exists, the recorded facing is the requested one |
| CaptureSource.Normalize | app/src/main/java/com/example/camtellect/RealtimePeer.kt:116 | the address is trimmed, and a missing or blank one is no address |
| CaptureSource.UseWireless | app/src/main/java/com/example/camtellect/RealtimePeer.kt:115-131 | a switch launches at most one capture |
| CaptureSource.UseWirelessOutcome | app/src/main/java/com/example/camtellect/RealtimePeer.kt:115-131 | no address selects the device camera, launching only when leaving wireless; an address selects it and launches polling unless already polled |
| CaptureSource.UseWirelessIdempotent | app/src/main/java/com/example/camtellect/RealtimePeer.kt:115-131 | asking twice for the same source launches nothing the second time |
| CaptureSource.UseWirelessTrims | app/src/main/java/com/example/camtellect/RealtimePeer.kt:116-126 | a whitespace variant of the polled address changes nothing |
| CaptureSource.PreferFacing | app/src/main/java/com/example/camtellect/RealtimePeer.kt:515-519 | a facing request does exactly one thing |
| CaptureSource.PreferFacingRelaunches | app/src/main/java/com/example/camtellect/RealtimePeer.kt:515-519 | the capturer is relaunched exactly when no camera is open or it faces the other way; otherwise capture is only ensured running |
| CaptureSource.SameFacingRestarts | app/src/main/java/com/example/camtellect/RealtimePeer.kt:512-520 | after a camera was opened for a facing, asking for it again only restarts capture |
| CaptureSource.Peer.constructor | app/src/main/java/com/example/camtellect/RealtimePeer.kt:57-69 | device camera facing back, nothing open, no polling |
| CaptureSource.Peer.UseWirelessCamera | app/src/main/java/com/example/camtellect/RealtimePeer.kt:115-131 | mode and launches are those of `UseWireless`; no address stops polling from continuing |
| CaptureSource.Peer.SetPreferredCameraFacing | app/src/main/java/com/example/camtellect/RealtimePeer.kt:512-520 | the preference and mode become the facing, with the action `PreferFacing` gives; polling stops |
| CaptureSource.Peer.StartDeviceCameraCapture | app/src/main/java/com/example/camtellect/RealtimePeer.kt:133-166 | without a video source nothing changes; else polling stops and, with cameras, the picked camera is opened and its facing recorded |
| CaptureSource.Peer.StartWirelessCapture | app/src/main/java/com/example/camtellect/RealtimePeer.kt:168-190 | with a video source, a new polling job fetches `FrameUrl(ip)` and the camera facing is cleared |
| CallSession.ConnectGuard | app/src/main/java/com/example/camtellect/realtime/RealtimeSessionManager.kt:120-127 | `connect()` moves only `Idle` or `Failed` to `Connecting`, and repeating it changes nothing |
| CallSession.IceTransitions | app/src/main/java/com/example/camtellect/realtime/RealtimeSessionManager.kt:306-318 | connected or completed means `Connected`; disconnected, closed or failed means `Failed("ICE state …")` except in `Idle`; other ICE states change nothing |
| CallSession.ConnectedOnlyByIce | app/src/main/java/com/example/camtellect/realtime/RealtimeSessionManager.kt:306-310 | the call becomes `Connected` only through an ICE connected or completed event |
| CallSession.IdleAfterDisconnect | app/src/main/java/com/example/camtellect/realtime/RealtimeSessionManager.kt:146-157 | after a disconnect has run, late ICE failures and a socket close keep the call `Idle` |
| CallSession.Toggle | app/src/main/java/com/example/camtellect/realtime/RealtimeSessionManager.kt:108-118 | the flag flips and a track exists afterwards exactly when it did before |
| CallSession.ToggleAgrees | app/src/main/java/com/example/camtellect/realtime/RealtimeSessionManager.kt:108-118 | after any toggle the track is enabled exactly when not muted |
| CallSession.ToggleTwice | app/src/main/java/com/example/camtellect/realtime/RealtimeSessionManager.kt:108-118 | toggling twice restores flag and track |
| CallSession.StringFieldRead | app/src/main/java/com/example/camtellect/realtime/RealtimeSessionManager.kt:440-442 | a string put with `put` reads back with `optString`; a null one reads as "" |
| CallSession.CandidateFields | app/src/main/java/com/example/camtellect/realtime/RealtimeSessionManager.kt:461-465 | the inner object carries the candidate's index, `sdpMid` and text |
| CallSession.MessageFields | app/src/main/java/com/example/camtellect/realtime/RealtimeSessionManager.kt:459-466 | the outer object has the candidate type and the inner object |
| CallSession.EnvelopeFields | app/src/main/java/com/example/camtellect/realtime/RealtimeSessionManager.kt:459-461 | an object built by putting a type and then a body reads back both |
| CallSession.IceCandidateRoundTrip | app/src/main/java/com/example/camtellect/realtime/RealtimeSessionManager.kt:437-466 | the message object `sendIceCandidate` builds, read by `handleSignalingMessage`, gives the candidate back, nulls as "" |
| CallSession.AnswerNeedsSdp | app/src/main/java/com/example/camtellect/realtime/RealtimeSessionManager.kt:430-436 | an answer is applied exactly when its SDP is non-empty, with that SDP |
| CallSession.OnlyTwoKindsAct | app/src/main/java/com/example/camtellect/realtime/RealtimeSessionManager.kt:426-456 | unparsable text and other types act on nothing; a candidate message acts exactly when it holds a `candidate` object |
| CallSession.FirstOpening | app/src/main/java/com/example/camtellect/realtime/RealtimeSessionManager.kt:480-493 | the first camera of the pass that gives a capturer, and none only when none does |
| CallSession.CreateCameraCapturer | app/src/main/java/com/example/camtellect/realtime/RealtimeSessionManager.kt:478-495 | the two loops with early return pick `CapturerChoice` |
| CallSession.CapturerChoiceSpec | app/src/main/java/com/example/camtellect/realtime/RealtimeSessionManager.kt:478-495 | a capturer is found exactly when some camera opens; it is front-facing whenever a front camera opens |
| CallSession.SessionManager.constructor | app/src/main/java/com/example/camtellect/realtime/RealtimeSessionManager.kt:58-95 | `Idle`, unmuted, no tracks, nothing open |
| CallSession.SessionManager.ToggleMute | app/src/main/java/com/example/camtellect/realtime/RealtimeSessionManager.kt:108-112 | microphone flag and track move as `Toggle` says |
| CallSession.SessionManager.ToggleCamera | app/src/main/java/com/example/camtellect/realtime/RealtimeSessionManager.kt:114-118 | camera flag and track move as `Toggle` says |
| CallSession.SessionManager.Connect | app/src/main/java/com/example/camtellect/realtime/RealtimeSessionManager.kt:120-128 | the state moves as `Next` says, and the job is launched exactly when the guard lets it through |
| CallSession.SessionManager.ConnectJobSucceeded | app/src/main/java/com/example/camtellect/realtime/RealtimeSessionManager.kt:130-137 | an audio track exists, a video track exists exactly when one did or a capturer was found, and the peer connection and socket are open |
| CallSession.SessionManager.ConnectJobFailed | app/src/main/java/com/example/camtellect/realtime/RealtimeSessionManager.kt:138-142 | the state is `Failed` with the message or "Connection failed", and a disconnect is queued |
| CallSession.SessionManager.Disconnect | app/src/main/java/com/example/camtellect/realtime/RealtimeSessionManager.kt:146-147 | one more teardown is queued |
| CallSession.SessionManager.RunDisconnect | app/src/main/java/com/example/camtellect/realtime/RealtimeSessionManager.kt:148-156 | a queued teardown closes everything and sets `Idle` |
| CallSession.SessionManager.OnIceConnectionChange | app/src/main/java/com/example/camtellect/realtime/RealtimeSessionManager.kt:306-318 | the state moves as `Next` says for the ICE event |
| CallSession.SessionManager.OnSocketFailure | app/src/main/java/com/example/camtellect/realtime/RealtimeSessionManager.kt:392-396 | the state is `Failed` with the message or "WebSocket failure", and a disconnect is queued |
| CallSession.SessionManager.OnSocketClosed | app/src/main/java/com/example/camtellect/realtime/RealtimeSessionManager.kt:398-403 | a close takes `Connected` to `Idle` and leaves any other state alone |
| CallSession.SessionManager.OnSignalingMessage | app/src/main/java/com/example/camtellect/realtime/RealtimeSessionManager.kt:384-390 | what the message asks is applied when the peer connection exists and the message acts |
| CallSession.SessionManager.SendIceCandidate | app/src/main/java/com/example/camtellect/realtime/RealtimeSessionManager.kt:458-468 | the candidate message's text is sent exactly when the socket is open |
| SessionRepository.PayloadContents | app/src/main/java/com/example/camtellect/realtime/RealtimeSessionRepository.kt:42-52 | the payload carries model, voice and the modalities text and audio, plus video exactly when enabled |
| SessionRepository.PayloadMembers | app/src/main/java/com/example/camtellect/realtime/RealtimeSessionRepository.kt:42-52 | the payload is exactly the three members in put order |
| SessionRepository.NonEmptyStrings | app/src/main/java/com/example/camtellect/realtime/RealtimeSessionRepository.kt:86-91 | every URL kept is non-empty, and no more URLs than entries |
| SessionRepository.ServersOf | app/src/main/java/com/example/camtellect/realtime/RealtimeSessionRepository.kt:83-84 | at most one server per entry |
| SessionRepository.SessionErrors | app/src/main/java/com/example/camtellect/realtime/RealtimeSessionRepository.kt:62-77 | the session fails exactly on a non-2xx code, a non-JSON body or a missing or empty `client_secret`, each with its message |
| SessionRepository.SessionDefaults | app/src/main/java/com/example/camtellect/realtime/RealtimeSessionRepository.kt:74-79 | the secret is non-empty; model and voice come from the answer when present, else from the request |
| SessionRepository.NoIceServers | app/src/main/java/com/example/camtellect/realtime/RealtimeSessionRepository.kt:80-82 | without an `ice_servers` array there are no servers |
| SessionRepository.ServersOfAppend | app/src/main/java/com/example/camtellect/realtime/RealtimeSessionRepository.kt:83-100 | servers keep the order of their entries |
| SessionRepository.ServersOfOne | app/src/main/java/com/example/camtellect/realtime/RealtimeSessionRepository.kt:84 | an object entry gives its server; any other entry is skipped |
| SessionRepository.NonEmptyStringsAppend | app/src/main/java/com/example/camtellect/realtime/RealtimeSessionRepository.kt:87-90 | URLs keep the order of their entries |
| SessionRepository.UrlsCases | app/src/main/java/com/example/camtellect/realtime/RealtimeSessionRepository.kt:85-94 | a string is kept whole even when empty, an array entry only when non-empty, anything else gives nothing |
| SessionRepository.FetchSession | app/src/main/java/com/example/camtellect/realtime/RealtimeSessionRepository.kt:61-107 | the loops compute exactly `Session` |
| SessionRepository.ReadUrls | app/src/main/java/com/example/camtellect/realtime/RealtimeSessionRepository.kt:85-94 | the `buildList` loop computes exactly `UrlsOf` |
| WakeWordService.PhotoUrl | app/src/main/java/com/example/camtellect/WakeWordService.kt:111-114 | no photo is fetched exactly when the stored IP is missing or empty |
| WakeWordService.PhotoUrlNamesCamera | app/src/main/java/com/example/camtellect/WakeWordService.kt:114 | the URL is `http://`, the stored address, `:8080/photo.jpg` |
| WakeWordService.PhotoUrlInjective | app/src/main/java/com/example/camtellect/WakeWordService.kt:114 | different cameras are fetched from different URLs |
| WakeWordService.BlankReply | app/src/main/java/com/example/camtellect/WakeWordService.kt:181 | no reply exactly for a missing or blank payload |
| WakeWordService.FirstKeyDecides | app/src/main/java/com/example/camtellect/WakeWordService.kt:184-189 | the first present of `reply`, `message`, `text` gives the reply; none gives the payload |
| WakeWordService.NullReplyWins | app/src/main/java/com/example/camtellect/WakeWordService.kt:185 | a JSON-null `reply` gives the text "null", whatever `message` holds |
| WakeWordService.UnparsedReply | app/src/main/java/com/example/camtellect/WakeWordService.kt:190 | non-JSON text loses exactly its surrounding quotes |
| WakeWordService.UnparsedReplyStable | app/src/main/java/com/example/camtellect/WakeWordService.kt:190 | stripping quotes twice strips nothing more |
| CameraWizard.FirstUsableIn | app/src/main/java/com/example/camtellect/ConnectCameraWizard.kt:208-211 | a found address is a non-loopback IPv4 of four parts |
| CameraWizard.FirstUsable | app/src/main/java/com/example/camtellect/ConnectCameraWizard.kt:206-211 | the same over all interfaces |
| CameraWizard.LocalSubnetBase | app/src/main/java/com/example/camtellect/ConnectCameraWizard.kt:204-216 | the nested loops with early return compute `SubnetBase` |
| CameraWizard.FirstUsableInAt | app/src/main/java/com/example/camtellect/ConnectCameraWizard.kt:208-211 | the first usable address of a list is the one found |
| CameraWizard.NoUsableIn | app/src/main/java/com/example/camtellect/ConnectCameraWizard.kt:208-213 | a list without usable addresses gives none |
| CameraWizard.FirstUsableAt | app/src/main/java/com/example/camtellect/ConnectCameraWizard.kt:206-214 | the first usable address, interface by interface, is the one returned |
| CameraWizard.NoneUsableGivesNone | app/src/main/java/com/example/camtellect/ConnectCameraWizard.kt:215 | interfaces without a usable address give no subnet |
| CameraWizard.BaseIsPrefix | app/src/main/java/com/example/camtellect/ConnectCameraWizard.kt:210-211 | the address is the base, a dot and its last part, and the base is the first three parts |
| CameraWizard.HostIpInjective | app/src/main/java/com/example/camtellect/ConnectCameraWizard.kt:190 | different hosts have different addresses |
| CameraWizard.ScanTargetsCover | app/src/main/java/com/example/camtellect/ConnectCameraWizard.kt:188-191 | hosts 1 to 254 are probed, each once, in order |
| CameraWizard.AcceptedHosts | app/src/main/java/com/example/camtellect/ConnectCameraWizard.kt:194-201 | exactly the accepted hosts, in ascending order |
| CameraWizard.ScanCandidates | app/src/main/java/com/example/camtellect/ConnectCameraWizard.kt:177-202 | no subnet, no candidates; else exactly the hosts that answered with an image, in host order |
| CameraWizard.ScanHasHost | app/src/main/java/com/example/camtellect/ConnectCameraWizard.kt:194-201 | a host's address is a candidate exactly when its probe answered with an image |
| CameraWizard.ScanOnlyAccepted | app/src/main/java/com/example/camtellect/ConnectCameraWizard.kt:194-201 | every candidate is the address of a host that answered with an image |
| CameraWizard.DoneIsFinal | app/src/main/java/com/example/camtellect/ConnectCameraWizard.kt:161-167 | no button leads away from `Done` |
| CameraWizard.DoneNeedsConfirm | app/src/main/java/com/example/camtellect/ConnectCameraWizard.kt:152-156 | the wizard finishes only by confirming a non-empty address in `Preview` |
| CameraWizard.ScanEndsOnPick | app/src/main/java/com/example/camtellect/ConnectCameraWizard.kt:84-97 | a scan ends on `PickResult`, finished, failed or skipped |
| CameraWizard.Wizard.constructor | app/src/main/java/com/example/camtellect/ConnectCameraWizard.kt:35-38 | `Intro`, no candidates, nothing selected, no error |
| CameraWizard.Wizard.Start | app/src/main/java/com/example/camtellect/ConnectCameraWizard.kt:60 | `Intro` moves to `OpenWifiSettings` |
| CameraWizard.Wizard.ImConnected | app/src/main/java/com/example/camtellect/ConnectCameraWizard.kt:75 | the scan step starts, with the error cleared |
| CameraWizard.Wizard.ScanFinished | app/src/main/java/com/example/camtellect/ConnectCameraWizard.kt:86-97 | the result becomes the candidates, or a failure empties them and sets the message or "Scan failed" |
| CameraWizard.Wizard.Skip | app/src/main/java/com/example/camtellect/ConnectCameraWizard.kt:84 | skipping cancels the scan: no candidates, and the cancellation's message, or "Scan failed", as error |
| CameraWizard.Wizard.Pick | app/src/main/java/com/example/camtellect/ConnectCameraWizard.kt:109 | a tapped candidate is selected and previewed |
| CameraWizard.Wizard.Rescan | app/src/main/java/com/example/camtellect/ConnectCameraWizard.kt:129 | a new scan starts with the error cleared |
| CameraWizard.Wizard.Back | app/src/main/java/com/example/camtellect/ConnectCameraWizard.kt:151 | `Preview` goes back to `PickResult` |
| CameraWizard.Wizard.Confirm | app/src/main/java/com/example/camtellect/ConnectCameraWizard.kt:152-156 | a non-empty selected address is handed on and the wizard is done; an empty one changes nothing |

## Left out

- ONNX Runtime inference: the mel, embedding and keyword sessions are uninterpreted functions from input to output tree. Tensor creation and closing are not modelled.
- Floating point: samples, mel values, scores and averages are reals. `Float` rounding, including `average().toFloat()`, is not modelled.
- The engine's lifecycle is not modelled, because it is platform plumbing around the modelled loop body:
  - `start()` and `stop()`;
  - the permission check;
  - `extractAsset`;
  - `AudioRecord` set-up, buffer sizing and the fallback builder;
  - the coroutine and its `isActive` loop;
  - `logIo`.
- A restart is not modelled. A second `start()` reallocates, and so zeroes, the embedding ring, while `embWriteIdx`, `embCount`, the queue, the overlap, the mel ring and the score window survive `stop()`. After a restart the classifier windows count zeroed slots as held embeddings. The model covers one run from the state `start()` leaves.
- WakeWordEngine.Engine.constructor: requires `smoothWindow >= 1`. With 0, `lastScores.removeFirst()` on the empty deque throws on the first score.
- `System.currentTimeMillis()` is the `now` parameter of each call. The source reads it once per score. A read of the `CHUNK_SAMPLES` buffer yields at most one chunk (`Engine.OnRead`), so one reading per read is the same as one per score.
- The RMS levels are not modelled: the microphone and assistant levels, and the speaking flag derived from the assistant level.
- WebRTC and OkHttp are not modelled:
  - the factory and EGL set-up;
  - the ICE server configuration of the peer connection;
  - offer creation;
  - the remote track callbacks;
  - `release()` and `startLocalPreview()`.
- CallSession.SessionManager.ConnectJobSucceeded: track creation and the opening of the peer connection and socket are taken as succeeding. The factory, EGL context and capturer start failures are not modelled.
- CaptureSource.Peer.StartDeviceCameraCapture: the capturer's `startCapture` exception and `ensureVideoCaptureRunning()` (recorded as an action only) are not modelled.
- The polling loop's body is not modelled: fetch, decode, delays and `onFrameCaptured`. Only its loop condition (`Peer.Polling`) and its URL are modelled.
- I420.BitmapToVideoFrame:
  - the plane strides are taken as `JavaI420Buffer.allocate` gives them: the width for Y, half of it rounded up for U and V;
  - the frame timestamp (`System.nanoTime()`) is not modelled.
- Json.OptInt: strings are parsed only as an optional minus sign followed by decimal digits, not by `(int) Double.parseDouble`. Strings such as "+1", "1.0", " 1" or "1e0" give 0 in the model, where the source gives 1. JSON numbers are integers in the model, so non-integer numbers and their truncation by `intValue()` are not modelled.
- FrameUrls.RewritePath, Text.EndsWithIgnoreCase, Text.Lower: case is folded for ASCII letters only. Kotlin's `ignoreCase = true` also folds other letters by Unicode case mapping, so paths such as `/vİdeo` (U+0130) or `/vıdeo` (U+0131) may be compared differently.
- CallSession.IceCandidateRoundTrip: the round trip is stated on the message object. Its text form (`toString()` and then `JSONObject(text)` on the other side) is not modelled.
- JSON text parsing and serialisation are not modelled in full:
  - `JSONObject(text)` is an input, `None` when it throws;
  - `toString()` covers only the values the model builds.
- HTTP exchanges are inputs, not modelled:
  - the session endpoint's status code and body;
  - each scanned host's probe outcome;
  - the photo download and upload in `WakeWordService`;
  - timeouts and the 24-way parallelism of the scan.
- Notifications, wake locks, preferences storage and every Compose screen are not modelled. Only the wizard's step logic and state are.

## Findings

| source | as written | input that shows it | evidently intended | confidence | as-written member | corrected member |
|---|---|---|---|---|---|---|
| app/src/main/java/com/example/camtellect/OpenWakeWordEngine.kt:92 | `shp[1] > 0` is tested on the `Long` but `shp[1].toInt()` is used, which keeps only the low 32 bits | classifier input shape `[1, 4294967296, 96]` passes the test and gives `SEQ_LEN` 0, so `embWriteIdx % SEQ_LEN` divides by zero | `SEQ_LEN` is a positive `Int` taken from an in-range dimension with `shp[1] * 96 <= Int.MAX_VALUE`, else 16 | not executed | OnnxOutput.SeqLenAsWrittenCanBeZero | OnnxOutput.SeqLen |
| app/src/main/java/com/example/camtellect/OpenWakeWordEngine.kt:94 | `FloatArray(SEQ_LEN * EMB_DIM)` multiplies in `Int` | shape `[1, 44739243, 96]` gives a 32-float ring, so the first 96-value `arraycopy` into it throws; `[1, 30000000, 96]` gives a negative size, so `start()` fails | a ring of `SEQ_LEN * 96` floats; a shape whose ring cannot fit an `Int` falls back to 16 | not executed | OnnxOutput.EmbRingAsWrittenWraps | OnnxOutput.SeqLen |
