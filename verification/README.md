# openrndr video player core, modelled in Dafny

This project models the frame presentation logic of openrndr's FFmpeg video
player (`VideoPlayerFFMPEG`) and three small pure cores beside it. Each part
comes with proofs of what the Kotlin code promises.

- **Display queue and drawing** (`video_player.dfy`, module `VideoPlayer`).
  The display thread and the render thread share a queue of decoded frames
  created with capacity 20. Each critical section is one atomic step over an
  immutable `Player` record:
  - `draw` in its lock-step and skip-ahead forms;
  - `seek` and the display thread's servicing of the seek request;
  - `restart`;
  - one pass of the display thread's loop (`Tick`: seek servicing, the
    virtual clock, taking a frame, waiting for queue space, pushing);
  - the `seekCompleted` callback;
  - the `audioGain` property.

  The player also records what has happened so far: frames taken from the
  decoder, pushed, popped, written to the colour buffer and released, plus
  the calls made to the decoder and the audio output. The invariant `Inv`
  ties these together:
  - the queue holds at most 19 frames and never a null frame;
  - the queue is FIFO;
  - every frame taken from the decoder is in exactly one place;
  - only popped, non-null frames are ever written.

  Every step preserves `Inv`.
- **Opening a source** (`av_file.dfy`, module `AvFile`; `play_modes.dfy`,
  module `PlayModes`). This covers:
  - the FFmpeg options dictionary `AVFile` builds;
  - the per-platform input format and device name chosen by `fromDevice`
    and `defaultDevice`;
  - the `PlayMode` flags;
  - the `Dimensions` arithmetic, with Kotlin `Int` wrap-around and division
    that truncates toward zero (`int32.dfy`, module `Int32`).

  Numbers are rendered as Kotlin string templates render them
  (`decimal.dfy`, module `Decimal`). An independent parser proves that
  nothing is lost.
- **Colour buffers** (`color_buffer.dfy`, module `ColorBuffers`): the file
  format guessed from a file name's extension, the `filter` setter and
  `bounds`.
- **Vertex buffers** (`vertex_buffer.dfy`, module `VertexBuffers`): the
  vertex-count arithmetic of `createFromFloats` and the incomplete-vertex
  check of `put`.
- **Compute shaders** (`compute_shader.dfy`, module `ComputeShader`): the
  bookkeeping `ComputeShaderGL43` keeps around its GL calls. The GL context
  is a program object with fixed uniform and storage-block tables, and every
  call is appended to an abstract trace. The module covers:
  - the memoised uniform-location cache, which queries each name at most
    once;
  - the storage binding allocator, which hands out distinct, consecutive
    points from 8;
  - the 3-component guard of the `image` overloads;
  - the boolean and vector-array encodings of uniform values;
  - the `ImageAccess` constants.

Behaviour of the code worth noting, which the model keeps:
- `restart()` does not clear a pending seek (`VideoPlayer.RestartKeepsPendingSeek`).
- Seek servicing does not reset the virtual clock. Only the decoder's
  `seekCompleted` callback does (`VideoPlayer.SeekCompleted`).
- The resynchronisation threshold is `fps * 2` seconds, not two frame periods
  (`VideoPlayer.Resync`). The variable the code calls `duration` holds the
  frame rate.
- With no audio output, setting `audioGain` stores nothing, and reading it
  gives 1.0 (`VideoPlayer.AudioGainRoundTrip`).
- The display queue is created with capacity 20. The configuration's
  `videoFrameQueueSize` (default 50) is not used for it.
- A stream whose frame rate is 0 shows one frame and then stalls. The first
  frame taken moves the virtual clock to `1.0 / 0.0`, positive infinity. No
  time is ever due after that, and the clock is never resynchronised. Only a
  completed seek resets it (`VideoPlayer.ZeroRateStalls`,
  `VideoPlayer.StalledClockTakesNothing`).

## Model

| member | source | states |
|---|---|---|
| Decimal.IntToString | openrndr-ffmpeg/src/main/kotlin/org/openrndr/ffmpeg/VideoPlayerFFMPEG.kt:64 | A number in an option string is written with a leading minus exactly when it is negative, followed by decimal digits only. |
| Decimal.IntToStringRoundTrip | openrndr-ffmpeg/src/main/kotlin/org/openrndr/ffmpeg/VideoPlayerFFMPEG.kt:73 | Reading the rendered digits back gives the original integer, so option values carry numbers without loss. |
| Decimal.IntToStringInjective | openrndr-ffmpeg/src/main/kotlin/org/openrndr/ffmpeg/VideoPlayerFFMPEG.kt:64 | Distinct numbers give distinct option texts. |
| Int32.Wrap | openrndr-ffmpeg/src/main/kotlin/org/openrndr/ffmpeg/VideoPlayerFFMPEG.kt:41 | A Kotlin `Int` result lies in the 32-bit range, is congruent to the exact result modulo 2^32, and equals it whenever it fits. |
| Int32.TruncDivRemainder | openrndr-ffmpeg/src/main/kotlin/org/openrndr/ffmpeg/VideoPlayerFFMPEG.kt:42 | JVM `/` rounds toward zero: the quotient's magnitude is the quotient of the magnitudes, and the remainder is smaller than the divisor and has the dividend's sign. |
| PlayModes.ModeFlags | openrndr-ffmpeg/src/main/kotlin/org/openrndr/ffmpeg/VideoPlayerFFMPEG.kt:31-38 | `useVideo` holds iff the mode is not AUDIO and `useAudio` iff it is not VIDEO. Every mode plays something, and only BOTH plays both. |
| PlayModes.Minus | openrndr-ffmpeg/src/main/kotlin/org/openrndr/ffmpeg/VideoPlayerFFMPEG.kt:41 | Subtracting dimensions gives valid 32-bit components, each congruent to the exact difference, and exact when no overflow happens. |
| PlayModes.Div | openrndr-ffmpeg/src/main/kotlin/org/openrndr/ffmpeg/VideoPlayerFFMPEG.kt:42 | Dividing dimensions fails exactly when the divisor is 0; otherwise both components are 32-bit values. |
| PlayModes.DivRoundsTowardZero | openrndr-ffmpeg/src/main/kotlin/org/openrndr/ffmpeg/VideoPlayerFFMPEG.kt:42 | For valid dimensions and any divisor but 0, except `Int.MIN_VALUE` divided by -1, each component is the truncated quotient: its remainder is below the divisor and takes the dividend's sign. Dividing by -1 negates both components. |
| PlayModes.QuotientInRange | openrndr-ffmpeg/src/main/kotlin/org/openrndr/ffmpeg/VideoPlayerFFMPEG.kt:42 | Dividing an `Int` by anything but 0 cannot overflow, except `Int.MIN_VALUE / -1`; dividing by -1 negates. |
| PlayModes.DivMinByMinusOneWraps | openrndr-ffmpeg/src/main/kotlin/org/openrndr/ffmpeg/VideoPlayerFFMPEG.kt:42 | `Int.MIN_VALUE / -1` overflows back to `Int.MIN_VALUE`. |
| AvFile.Options | openrndr-ffmpeg/src/main/kotlin/org/openrndr/ffmpeg/VideoPlayerFFMPEG.kt:63-82 | `rtbufsize` is set iff the buffer size is not -1; `framerate` iff a rate is given; `video_size` = "WxH" iff both width and height are given; `max_delay=0` iff the name starts with `rtsp://`; `allowed_media_types=video` iff it also plays VIDEO only. `user_agent` is always set, and no other key is. |
| AvFile.VideoSizeRoundTrip | openrndr-ffmpeg/src/main/kotlin/org/openrndr/ffmpeg/VideoPlayerFFMPEG.kt:72-74 | The `video_size` text splits at its `x` back into exactly the requested width and height, negative values included. |
| AvFile.DeviceFileName | openrndr-ffmpeg/src/main/kotlin/org/openrndr/ffmpeg/VideoPlayerFFMPEG.kt:221-225 | On Windows the device name is prefixed with `video=`; on the other platforms it passes unchanged. |
| AvFile.DeviceFileNameInjective | openrndr-ffmpeg/src/main/kotlin/org/openrndr/ffmpeg/VideoPlayerFFMPEG.kt:221-225 | Two device names on one platform never map to the same file name. |
| AvFile.DefaultDevice | openrndr-ffmpeg/src/main/kotlin/org/openrndr/ffmpeg/VideoPlayerFFMPEG.kt:230-242 | The default device name is never empty and never an RTSP URL. It is a `/dev/` path exactly on the generic (Linux) platform. |
| AvFile.FromDevice | openrndr-ffmpeg/src/main/kotlin/org/openrndr/ffmpeg/VideoPlayerFFMPEG.kt:219-228 | Opening a device uses the platform's input format (dshow, avfoundation, video4linux2) and passes the mode, rate and size through unchanged. |
| AvFile.FromFile | openrndr-ffmpeg/src/main/kotlin/org/openrndr/ffmpeg/VideoPlayerFFMPEG.kt:213-217 | Opening a file passes the file name and mode on unchanged. It forces no input format, frame rate or image size. |
| AvFile.FromFileDefault | openrndr-ffmpeg/src/main/kotlin/org/openrndr/ffmpeg/VideoPlayerFFMPEG.kt:213 | `fromFile` without a mode plays both video and audio. |
| AvFile.FromFileOptions | openrndr-ffmpeg/src/main/kotlin/org/openrndr/ffmpeg/VideoPlayerFFMPEG.kt:76-81 | A file opened from an `rtsp://` URL gets `max_delay=0`, and `allowed_media_types=video` iff the mode is VIDEO; any other name gets neither. No rate or size is ever set for a file, and the default mode never restricts media types. |
| AvFile.DefaultDeviceOptions | openrndr-ffmpeg/src/main/kotlin/org/openrndr/ffmpeg/VideoPlayerFFMPEG.kt:219-242 | The default device on every platform opens video-only. It is never treated as an RTSP stream, so neither `max_delay` nor `allowed_media_types` is set, and neither `framerate` nor `video_size` is forced. |
| ColorBuffers.Extension | openrndr-core/src/main/kotlin/org/openrndr/draw/ColorBuffer.kt:95 | The extension is what follows the last `.` of the name: it contains no dot, and it is empty when the name has none. |
| ColorBuffers.GuessFromExtension | openrndr-core/src/main/kotlin/org/openrndr/draw/ColorBuffer.kt:94-101 | `jpg` or `jpeg` gives JPG and `png` gives PNG, ignoring case. Every other extension, the empty one included, fails, and the error carries the lower-cased extension. |
| ColorBuffers.GuessFromFileName | openrndr-core/src/main/kotlin/org/openrndr/draw/ColorBuffer.kt:94-101 | For a file's name (`File.name`, the last path component), the lower-cased text after the last dot decides the format. jpg or jpeg gives JPG, png gives PNG, and those are exactly the successes, so a name without a dot is refused. A refused name reports that lower-cased extension, which has no dot in it. |
| ColorBuffers.GuessIgnoresCase | openrndr-core/src/main/kotlin/org/openrndr/draw/ColorBuffer.kt:95 | The guess depends only on the lower-cased extension. |
| ColorBuffers.GuessUpperCase | openrndr-core/src/main/kotlin/org/openrndr/draw/ColorBuffer.kt:95-97 | `photo.JPEG` is saved as JPG. |
| ColorBuffers.GuessLastDot | openrndr-core/src/main/kotlin/org/openrndr/draw/ColorBuffer.kt:95-99 | `archive.tar.gz` is refused with extension `gz`: only the text after the last dot counts. |
| ColorBuffers.GuessNoDot | openrndr-core/src/main/kotlin/org/openrndr/draw/ColorBuffer.kt:99 | A name without a dot is refused with the empty extension. |
| ColorBuffers.Filter | openrndr-core/src/main/kotlin/org/openrndr/draw/ColorBuffer.kt:151-154 | `filter(min, mag)` sets both filters and leaves size, scale, wrap modes and flip unchanged. |
| ColorBuffers.FilterLastWriteWins | openrndr-core/src/main/kotlin/org/openrndr/draw/ColorBuffer.kt:151-154 | A second `filter` call overrides the first, and setting the current filters changes nothing. |
| ColorBuffers.Bounds | openrndr-core/src/main/kotlin/org/openrndr/draw/ColorBuffer.kt:83 | `bounds` has its corner at (0, 0) and the buffer's width and height. |
| ColorBuffers.BoundsContains | openrndr-core/src/main/kotlin/org/openrndr/draw/ColorBuffer.kt:83 | Reading `bounds` as a closed rectangle (the model's own `Contains`, not openrndr's `Rectangle.contains`), an integer position lies in it exactly when it lies within the buffer's width and height. |
| VertexBuffers.CreateDynamic | openrndr-core/src/main/kotlin/org/openrndr/draw/VertexBuffer.kt:8 | A new buffer has the requested format and vertex count. That nothing is written or uploaded yet is what the driver's `createDynamicVertexBuffer` (not part of this model) is taken to promise. |
| VertexBuffers.Put | openrndr-core/src/main/kotlin/org/openrndr/draw/VertexBuffer.kt:40-51 | `put` succeeds exactly when the bytes written fill whole vertices. It then uploads elements [0, count) once, rewinds the writer and returns a count with count x vertex size = bytes written. A partial vertex throws with no upload and leaves the writer where the putter stopped. A format of size 0 throws an arithmetic error. |
| VertexBuffers.PutRewindsFirst | openrndr-core/src/main/kotlin/org/openrndr/draw/VertexBuffer.kt:42 | Where an earlier write left the writer makes no difference to a `put`, because the writer is rewound first. |
| VertexBuffers.CreateFromFloats | openrndr-core/src/main/kotlin/org/openrndr/draw/VertexBuffer.kt:10-21 | `createFromFloats` fails unless the float bytes (4 per float) are a multiple of the vertex size. A format of size 0 fails as an arithmetic error. Otherwise vertexCount x size = data bytes, and exactly one upload of all vertices is made. |
| VertexBuffers.RewriteCreated | openrndr-core/src/main/kotlin/org/openrndr/draw/VertexBuffer.kt:14-18 | Putting the same floats into a created buffer again returns exactly its vertex count. |
| ComputeShader.AccessGl | openrndr-gl3/src/main/kotlin/org/openrndr/internal/gl3/ComputeShaderGL43.kt:15-21 | READ, WRITE and READ_WRITE map to GL_READ_ONLY (0x88B8), GL_WRITE_ONLY (0x88B9) and GL_READ_WRITE (0x88BA), each exactly. |
| ComputeShader.AccessGlRoundTrip | openrndr-gl3/src/main/kotlin/org/openrndr/internal/gl3/ComputeShaderGL43.kt:15-21 | The mapping is injective, and each constant reads back as its access mode. |
| ComputeShader.New | openrndr-gl3/src/main/kotlin/org/openrndr/internal/gl3/ComputeShaderGL43.kt:23-26 | A new shader has empty uniform and storage tables and has queried no uniforms, so it satisfies the cache invariant and the dense-slot invariant. |
| ComputeShader.UniformIndex | openrndr-gl3/src/main/kotlin/org/openrndr/internal/gl3/ComputeShaderGL43.kt:27-37 | A cached name costs no GL call and changes nothing. A new name is queried once and cached, and earlier entries are kept. It warns iff the location is -1 and `query` is false. |
| ComputeShader.UniformIndexMemoised | openrndr-gl3/src/main/kotlin/org/openrndr/internal/gl3/ComputeShaderGL43.kt:28 | A second lookup of a name answers the same location and changes no state, whatever `query` is. |
| ComputeShader.UniformIndexAnswersProgram | openrndr-gl3/src/main/kotlin/org/openrndr/internal/gl3/ComputeShaderGL43.kt:28-36 | Under the cache invariant, the answer is always the program's own location for the name. |
| ComputeShader.UniformIndexPreservesCache | openrndr-gl3/src/main/kotlin/org/openrndr/internal/gl3/ComputeShaderGL43.kt:27-37 | Lookups keep the invariant: every name is queried from GL at most once, exactly the queried names are cached, and each with its program location. |
| ComputeShader.Flatten | openrndr-gl3/src/main/kotlin/org/openrndr/internal/gl3/ComputeShaderGL43.kt:350-354 | n vectors of k components flatten to n*k floats, with component j of element i at index i*k+j. The same layout is used at 368-373 and 386-392. |
| ComputeShader.UnflattenFlatten | openrndr-gl3/src/main/kotlin/org/openrndr/internal/gl3/ComputeShaderGL43.kt:386-392 | Cutting the flat array into runs of k floats gives back the original vectors. |
| ComputeShader.Encode | openrndr-gl3/src/main/kotlin/org/openrndr/internal/gl3/ComputeShaderGL43.kt:281-289 | A Boolean uniform is sent as the integer 1 for true and 0 for false. Vector arrays go out as k-component float vectors that unflatten to the input, and an Int goes out unchanged. |
| ComputeShader.SetUniform | openrndr-gl3/src/main/kotlin/org/openrndr/internal/gl3/ComputeShaderGL43.kt:214-409 | Each setter first binds the program. It uploads exactly one value, as its last call, iff the name's location is not -1, and it uploads nothing otherwise. |
| ComputeShader.MissingUniformNeverUploaded | openrndr-gl3/src/main/kotlin/org/openrndr/internal/gl3/ComputeShaderGL43.kt:217 | Setting a uniform the program lacks issues no upload. |
| ComputeShader.SetUniformPreservesCache | openrndr-gl3/src/main/kotlin/org/openrndr/internal/gl3/ComputeShaderGL43.kt:214-221 | Uniform setters keep the at-most-once query invariant. |
| ComputeShader.ImageBindingAsWritten | openrndr-gl3/src/main/kotlin/org/openrndr/internal/gl3/ComputeShaderGL43.kt:89-118 | As written, every overload binds layer 0. Only the whole-array and cubemap overloads pass `layered = true`. |
| ComputeShader.ArrayLayerIgnored | openrndr-gl3/src/main/kotlin/org/openrndr/internal/gl3/ComputeShaderGL43.kt:99 | Asking the single-layer overload for layer 3 binds layer 0. |
| ComputeShader.ImageBinding | openrndr-gl3/src/main/kotlin/org/openrndr/internal/gl3/ComputeShaderGL43.kt:131 | Whole-array and cubemap bindings are layered. The single-layer binding is not layered and binds the requested layer. |
| ComputeShader.ImageBindingAgrees | openrndr-gl3/src/main/kotlin/org/openrndr/internal/gl3/ComputeShaderGL43.kt:162 | The corrected binding differs from the written one exactly for a single-layer request of a layer other than 0. |
| ComputeShader.Image | openrndr-gl3/src/main/kotlin/org/openrndr/internal/gl3/ComputeShaderGL43.kt:58-181 | Every `image` overload as written fails iff the format has 3 components, before any GL call. Otherwise it binds the program, then binds the texture to the unit with the mapped access at layer 0, layered only for the whole-array and cubemap overloads. It ends by setting the uniform to the unit, without a -1 check. |
| ComputeShader.ImageCorrected | openrndr-gl3/src/main/kotlin/org/openrndr/internal/gl3/ComputeShaderGL43.kt:89-118 | With the single-layer overload fixed, the texture is bound at the requested layer and not layered. Everything else is as in `Image`. |
| ComputeShader.ImageCorrectedAgrees | openrndr-gl3/src/main/kotlin/org/openrndr/internal/gl3/ComputeShaderGL43.kt:99 | The fixed overloads make exactly the calls of the written ones, except for a single-layer request of a layer other than 0, where they differ. |
| ComputeShader.ImagePreservesCache | openrndr-gl3/src/main/kotlin/org/openrndr/internal/gl3/ComputeShaderGL43.kt:81-82 | Image bindings, written or fixed, keep the at-most-once query invariant. |
| ComputeShader.Allocate | openrndr-gl3/src/main/kotlin/org/openrndr/internal/gl3/ComputeShaderGL43.kt:189 | A known name keeps its binding point. A new name gets `size + 8`, and no other entry changes. |
| ComputeShader.AllocateKeepsSlotsDense | openrndr-gl3/src/main/kotlin/org/openrndr/internal/gl3/ComputeShaderGL43.kt:186-189 | Binding points stay distinct, and together they are exactly 8, 9, ... up to 7 + the number of names. |
| ComputeShader.Buffer | openrndr-gl3/src/main/kotlin/org/openrndr/internal/gl3/ComputeShaderGL43.kt:188-204 | The buffer is bound at the name's binding point. The storage block is tied to that point iff its index is at least 0; otherwise there is exactly one warning. |
| ComputeShader.BufferSlotStable | openrndr-gl3/src/main/kotlin/org/openrndr/internal/gl3/ComputeShaderGL43.kt:189 | Once a name has a binding point, later `buffer` calls for any name leave it unchanged. |
| ComputeShader.BufferPreservesCache | openrndr-gl3/src/main/kotlin/org/openrndr/internal/gl3/ComputeShaderGL43.kt:196 | Storage bindings make no uniform queries, so they keep the cache invariant. |
| ComputeShader.DestroyAsWritten | openrndr-gl3/src/main/kotlin/org/openrndr/internal/gl3/ComputeShaderGL43.kt:440-445 | As written, `destroy` deletes the program whenever the flag is unset, and it never sets the flag. |
| ComputeShader.DestroyTwiceDeletesTwice | openrndr-gl3/src/main/kotlin/org/openrndr/internal/gl3/ComputeShaderGL43.kt:25 | Two `destroy` calls delete the program object twice. |
| ComputeShader.Destroy | openrndr-gl3/src/main/kotlin/org/openrndr/internal/gl3/ComputeShaderGL43.kt:441-443 | With the flag set after deleting, the program is deleted at most once. |
| ComputeShader.DestroyIdempotent | openrndr-gl3/src/main/kotlin/org/openrndr/internal/gl3/ComputeShaderGL43.kt:441 | With the flag set, a second `destroy` does nothing. |
| VideoPlayer.StartedInv | openrndr-ffmpeg/src/main/kotlin/org/openrndr/ffmpeg/VideoPlayerFFMPEG.kt:391-392 | The player starts with the invariant holding: an empty queue, no waiting frame, nothing taken from the decoder, no seek pending (position -1) and the clock at 0. |
| VideoPlayer.FullOnlyAtBound | openrndr-ffmpeg/src/main/kotlin/org/openrndr/ffmpeg/VideoPlayerFFMPEG.kt:313 | With the producer waiting on `displayQueueFull`, the queue never reaches capacity 20, and it reads as full exactly at 19 frames. |
| VideoPlayer.ReleasedAtMostOnce | openrndr-ffmpeg/src/main/kotlin/org/openrndr/ffmpeg/VideoPlayerFFMPEG.kt:429 | No frame is released twice, provided the decoder hands out each frame once. |
| VideoPlayer.Drain | openrndr-ffmpeg/src/main/kotlin/org/openrndr/ffmpeg/VideoPlayerFFMPEG.kt:383-385 | Draining empties the queue. It pops the frames in queue order and releases each queued frame once. |
| VideoPlayer.DrainPreservesInv | openrndr-ffmpeg/src/main/kotlin/org/openrndr/ffmpeg/VideoPlayerFFMPEG.kt:333-337 | Draining keeps the invariant. |
| VideoPlayer.DrawLockStep | openrndr-ffmpeg/src/main/kotlin/org/openrndr/ffmpeg/VideoPlayerFFMPEG.kt:402-415 | An empty queue is left unchanged. Otherwise exactly the head frame is removed, the rest keep their order, and the head is released. It is written iff its buffer is not null and there is a colour buffer. |
| VideoPlayer.DrawLockStepPreservesInv | openrndr-ffmpeg/src/main/kotlin/org/openrndr/ffmpeg/VideoPlayerFFMPEG.kt:402-415 | A lock-step draw keeps the invariant. |
| VideoPlayer.LockStepDrawsInOrder | openrndr-ffmpeg/src/main/kotlin/org/openrndr/ffmpeg/VideoPlayerFFMPEG.kt:403-413 | n lock-step draws write exactly the first n queued frames in decode order, release them, and leave the rest queued. |
| VideoPlayer.DrawSkipAhead | openrndr-ffmpeg/src/main/kotlin/org/openrndr/ffmpeg/VideoPlayerFFMPEG.kt:416-431 | A skip-ahead draw empties the queue, popping in order and releasing every frame once. Only the last frame is written, and only if non-null; an empty queue writes nothing. |
| VideoPlayer.SkipAheadPreservesInv | openrndr-ffmpeg/src/main/kotlin/org/openrndr/ffmpeg/VideoPlayerFFMPEG.kt:418-430 | A skip-ahead draw keeps the invariant. |
| VideoPlayer.Draw | openrndr-ffmpeg/src/main/kotlin/org/openrndr/ffmpeg/VideoPlayerFFMPEG.kt:400-432 | `draw` follows `allowFrameSkipping` to choose the lock-step or skip-ahead behaviour, and keeps the invariant. |
| VideoPlayer.Seek | openrndr-ffmpeg/src/main/kotlin/org/openrndr/ffmpeg/VideoPlayerFFMPEG.kt:394-398 | `seek(t)` sets the request flag and the position, and changes nothing else: queue, waiting frame, clock, decoder and histories are untouched. |
| VideoPlayer.SeekLastWriterWins | openrndr-ffmpeg/src/main/kotlin/org/openrndr/ffmpeg/VideoPlayerFFMPEG.kt:396-397 | Two seeks before servicing leave the second position. |
| VideoPlayer.SeekPreservesInv | openrndr-ffmpeg/src/main/kotlin/org/openrndr/ffmpeg/VideoPlayerFFMPEG.kt:394-398 | A seek request keeps the invariant. |
| VideoPlayer.ServiceSeek | openrndr-ffmpeg/src/main/kotlin/org/openrndr/ffmpeg/VideoPlayerFFMPEG.kt:331-342 | With a seek pending, servicing empties the queue releasing each frame once, seeks the decoder to the position and clears the request. Otherwise it does nothing. |
| VideoPlayer.ServiceSeekPreservesInv | openrndr-ffmpeg/src/main/kotlin/org/openrndr/ffmpeg/VideoPlayerFFMPEG.kt:333-341 | Seek servicing keeps the invariant. |
| VideoPlayer.SeekThenService | openrndr-ffmpeg/src/main/kotlin/org/openrndr/ffmpeg/VideoPlayerFFMPEG.kt:338-340 | A seek followed by servicing calls the decoder seek between flushing and resuming the audio, when there is audio. |
| VideoPlayer.Restart | openrndr-ffmpeg/src/main/kotlin/org/openrndr/ffmpeg/VideoPlayerFFMPEG.kt:380-389 | `restart` empties the queue releasing each frame once, restarts the decoder and flushes the audio. Nothing else changes: seek state, clock, waiting frame, settings, audio output and the other histories are kept. |
| VideoPlayer.RestartPreservesInv | openrndr-ffmpeg/src/main/kotlin/org/openrndr/ffmpeg/VideoPlayerFFMPEG.kt:382-386 | `restart` keeps the invariant. |
| VideoPlayer.RestartKeepsPendingSeek | openrndr-ffmpeg/src/main/kotlin/org/openrndr/ffmpeg/VideoPlayerFFMPEG.kt:387-388 | A seek pending across `restart` stays pending and is still serviced afterwards. |
| VideoPlayer.SeekCompleted | openrndr-ffmpeg/src/main/kotlin/org/openrndr/ffmpeg/VideoPlayerFFMPEG.kt:326-328 | The seek-completed callback resets the virtual clock to 0 and changes nothing else. |
| VideoPlayer.Resync | openrndr-ffmpeg/src/main/kotlin/org/openrndr/ffmpeg/VideoPlayerFFMPEG.kt:347-352 | The clock becomes `now` exactly when it lags by more than `fps * 2` and is otherwise kept; a clock at infinity stays there. For a non-negative rate it never moves backwards, and afterwards the lag is at most `fps * 2`. |
| VideoPlayer.Advance | openrndr-ffmpeg/src/main/kotlin/org/openrndr/ffmpeg/VideoPlayerFFMPEG.kt:356 | `nextFrame += 1.0 / fps` moves the clock one frame period later, or to positive infinity when fps is 0. |
| VideoPlayer.Deliver | openrndr-ffmpeg/src/main/kotlin/org/openrndr/ffmpeg/VideoPlayerFFMPEG.kt:358-371 | While the queue is full, the producer waits and nothing changes. Otherwise a frame with pixels is pushed at the back. A null frame is released, never queued and never counted as pushed. |
| VideoPlayer.TakeFrame | openrndr-ffmpeg/src/main/kotlin/org/openrndr/ffmpeg/VideoPlayerFFMPEG.kt:354-356 | Taking a frame from the decoder records it, holds it until it is delivered and sets the clock. Nothing else changes. |
| VideoPlayer.TickClock | openrndr-ffmpeg/src/main/kotlin/org/openrndr/ffmpeg/VideoPlayerFFMPEG.kt:344-357 | After resynchronisation, a pass takes a frame iff the clock is due and the decoder has a frame. Then the clock advances by 1/fps, or to infinity when fps is 0. Otherwise it is unchanged. |
| VideoPlayer.Tick | openrndr-ffmpeg/src/main/kotlin/org/openrndr/ffmpeg/VideoPlayerFFMPEG.kt:330-375 | A pass of the display loop that is waiting on a full queue changes nothing. A waiting pass with room delivers its frame: it pushes the frame when it has pixels and releases it when it is null. A waiting pass takes no new frame and makes no call. A pass that is not waiting services a pending seek: it pops and releases every queued frame, then flushes the audio, seeks the decoder and resumes the audio. Such a pass leaves no seek pending and takes at most the one frame the decoder offers. No pass draws, changes the audio output or grows the queue by more than one frame. |
| VideoPlayer.TickReady | openrndr-ffmpeg/src/main/kotlin/org/openrndr/ffmpeg/VideoPlayerFFMPEG.kt:331-373 | A pass that is not waiting leaves no seek pending, and makes the drain and the audio-wrapped decoder seek exactly when one was requested. After that, when the clock is due and the decoder offers a frame with pixels, the frame is queued if there is room and held as pending if the queue is full. When no frame is due or offered, nothing is taken or queued. |
| VideoPlayer.Poll | openrndr-ffmpeg/src/main/kotlin/org/openrndr/ffmpeg/VideoPlayerFFMPEG.kt:344-373 | When the resynchronised clock is due and the decoder offers a frame, the frame is taken. It is then queued if it has pixels and the queue has room, released if it is null, and held as pending while the queue is full. Otherwise nothing is taken, queued or released. Seek flag and position, decoder and audio calls, popped and shown frames and the audio output are kept. |
| VideoPlayer.TickQueuesOnlyFrames | openrndr-ffmpeg/src/main/kotlin/org/openrndr/ffmpeg/VideoPlayerFFMPEG.kt:364-371 | A tick grows the queue by at most the frame it delivers, at the back, and only if that frame is not null. |
| VideoPlayer.TickPreservesInv | openrndr-ffmpeg/src/main/kotlin/org/openrndr/ffmpeg/VideoPlayerFFMPEG.kt:330-375 | Every pass of the display loop keeps the invariant: bounded queue, FIFO, no null frames queued or written, and every frame in exactly one place. |
| VideoPlayer.PollPreservesInv | openrndr-ffmpeg/src/main/kotlin/org/openrndr/ffmpeg/VideoPlayerFFMPEG.kt:344-373 | The clock-and-frame part of the loop keeps the invariant. |
| VideoPlayer.PollDuePreservesInv | openrndr-ffmpeg/src/main/kotlin/org/openrndr/ffmpeg/VideoPlayerFFMPEG.kt:353-356 | When the clock is due and the decoder has a frame, taking and delivering it keeps the invariant. |
| VideoPlayer.PollTakesPreservesInv | openrndr-ffmpeg/src/main/kotlin/org/openrndr/ffmpeg/VideoPlayerFFMPEG.kt:354-371 | Taking a frame and immediately trying to deliver it keeps the invariant. |
| VideoPlayer.TakeFramePreservesInv | openrndr-ffmpeg/src/main/kotlin/org/openrndr/ffmpeg/VideoPlayerFFMPEG.kt:354-356 | Holding a freshly decoded frame before delivery keeps the invariant: it is counted as pending. |
| VideoPlayer.ClockPreservesInv | openrndr-ffmpeg/src/main/kotlin/org/openrndr/ffmpeg/VideoPlayerFFMPEG.kt:347-356 | Moving the virtual clock alone never breaks the invariant. |
| VideoPlayer.DeliverPreservesInv | openrndr-ffmpeg/src/main/kotlin/org/openrndr/ffmpeg/VideoPlayerFFMPEG.kt:364-371 | Pushing or releasing the waiting frame keeps the invariant. |
| VideoPlayer.SeekCompletedRestartsClock | openrndr-ffmpeg/src/main/kotlin/org/openrndr/ffmpeg/VideoPlayerFFMPEG.kt:326-356 | After the clock reset, the first tick later than `fps * 2` resynchronises to `now` and takes a frame at once. |
| VideoPlayer.ZeroRateStalls | openrndr-ffmpeg/src/main/kotlin/org/openrndr/ffmpeg/VideoPlayerFFMPEG.kt:356 | With a frame rate of 0, taking a frame sends the clock to infinity. |
| VideoPlayer.StalledClockTakesNothing | openrndr-ffmpeg/src/main/kotlin/org/openrndr/ffmpeg/VideoPlayerFFMPEG.kt:347-356 | A clock at infinity is never due and never resynchronised, so no further frame is taken until a seek completes. |
| VideoPlayer.AudioGain | openrndr-ffmpeg/src/main/kotlin/org/openrndr/ffmpeg/VideoPlayerFFMPEG.kt:261-263 | The gain reads as the audio output's gain, or 1.0 without audio. |
| VideoPlayer.SetAudioGain | openrndr-ffmpeg/src/main/kotlin/org/openrndr/ffmpeg/VideoPlayerFFMPEG.kt:256-260 | Setting the gain changes only the audio output, when there is one. |
| VideoPlayer.SetAudioGainPreservesInv | openrndr-ffmpeg/src/main/kotlin/org/openrndr/ffmpeg/VideoPlayerFFMPEG.kt:256-260 | Setting the gain keeps the frame invariant `Inv`. |
| VideoPlayer.AudioGainRoundTrip | openrndr-ffmpeg/src/main/kotlin/org/openrndr/ffmpeg/VideoPlayerFFMPEG.kt:255-263 | Reading after setting gives the value set, or 1.0 when the player has no audio. |

## Left out

- Threads, `synchronized`, `Thread.sleep` and the wall clock. Each critical section is one atomic step. `now` is a parameter of `Tick` (a `real`), and the display thread's busy-wait is the `pending` slot of `Player`.
- The `Decoder` class and all FFmpeg calls. This covers opening, stream info, format dumping, codec opening (`openCodec`) and `av_d2q`. The decoder is an oracle: a tick is given the frame `nextVideoFrame()` would return, and `seek`/`restart` are recorded as effects. The frame rate reaches the options as the fraction `av_d2q` produced.
- `listDeviceNames`: it scrapes log output and the file system.
- The audio queue-source callback, `AudioSystem` and the audio decode path. Only the `audioGain` property and the flush/resume/restart calls are modelled.
- `play()`'s setup: creating the colour buffer, the video and audio outputs and the threads. The display thread runs only when the mode uses video; the model assumes it does.
- `draw`'s final `drawer.image(colorBuffer)`, the `blind` flag and `VideoStatistics`. Writing to the colour buffer is recorded as the frame shown.
- The `Queue` class is not part of this model. It is taken to be a FIFO of capacity 20 (`MaxSize`).
- The clock is a `Double` modelled as a real or positive infinity (`Clock`). The other IEEE special values are not modelled. A frame rate of negative zero would give negative infinity and NaN would never be due; the frame rate is taken to be a non-negative number.
- ColorBuffers.Lower: lower-cases ASCII letters only. That covers every extension the guess accepts; Unicode case folding is not modelled.
- `ColorBuffer` I/O (`loadImage`, URL parsing, `saveToFile`, `Session` tracking), `effectiveWidth`/`effectiveHeight` (a floating-point product truncated to `Int`), and all floating-point conversions (`toFloat()`); reals stand in for `Double` and `Float`.
- VertexBuffers.CreateFromFloats: `data.size * 4` is unbounded here. A `FloatArray` of more than 2^29 elements would wrap in Kotlin `Int`.
- VertexBuffers.Put: the putter is reduced to the number of bytes it writes. The element count is taken as bytes / vertex size, which is what `positionElements` of the writer (not part of this model) is assumed to return.
- The GL side of `ComputeShaderGL43`: `execute`, `counters`, `createFromCode`, `checkGLErrors`/`debugGLErrors`/`postUniformCheck` and the uniform value conversions to `Float`. GL calls are only recorded in the trace. Matrices are passed as their entries.
- ComputeShader.New: the `glGenBuffers()` call that creates `ssbo` when the shader is constructed is not in the trace. The buffer name it returns is a parameter of `New`.
- `Driver.kt`: an interface with no logic of its own.

## Findings

| source | as written | input that shows it | evidently intended | confidence | as-written member | corrected member |
|---|---|---|---|---|---|---|
| openrndr-gl3/src/main/kotlin/org/openrndr/internal/gl3/ComputeShaderGL43.kt:99 | The single-layer `image(name, image, arrayTexture, layer, access)` overload passes layer 0 to `glBindImageTexture`; its `layer` parameter is never used. | `image("img", 0, arrayTexture, 3, READ)` binds layer 0 of the array texture. | Bind the requested layer: `glBindImageTexture(image, texture, 0, false, layer, …)`. | not executed | ComputeShader.ArrayLayerIgnored | ComputeShader.ImageCorrected |
| openrndr-gl3/src/main/kotlin/org/openrndr/internal/gl3/ComputeShaderGL43.kt:440-445 | `destroy()` tests `destroyed` but never sets it. | Calling `destroy()` twice issues `glDeleteProgram` twice for the same program name. | Set `destroyed = true` after deleting, so a second call does nothing. | not executed | ComputeShader.DestroyTwiceDeletesTwice | ComputeShader.Destroy |
