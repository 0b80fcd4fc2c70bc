# ESP32-CAM relay control: camera web server core

This Dafny project models the logic in `app_httpd.cpp` of the ESP32-CAM relay-control firmware. That file is the HTTP server of an ESP32 camera board which streams MJPEG video, changes sensor settings and switches four relays and an LED. The model covers these parts:

- **Running-average filter** (`ra_filter_t`, `ra_filter_init`, `ra_filter_run`), in `ra_filter.dfy`.
  - A class over an `array<int>` holding a ring of samples.
  - It keeps a write index, a count that saturates at the capacity, and a running sum.
  - Every call answers the integer mean of the most recent `min(calls, capacity)` samples.
  - A ghost `history` records every sample fed in. The array contents, index, count and sum are proved to be functions of it: `Slots`, `Ring`, `Min` and `WindowSum`.
- **MJPEG stream handler** (`stream_handler`), in `mjpeg_stream.dfy`.
  - The camera, the JPEG converter, the HTTP send calls and the clock are abstract `Outcome`s, one per iteration of the loop.
  - The handler's effects are recorded as a sequence of `Event`s: chunk sends, frame returns and frees.
  - `StreamIteration` is one pass of the loop body and `StreamServer.Pump` is the loop. `StreamServer.Serve` is the whole handler, including the `static last_frame` and the filter fed with frame times.
- **Part header and `atoi`**, in `decimal.dfy`.
  - The part header is `_STREAM_PART` with `%u` filled in. It is built from a decimal renderer, and a client reading it back gets the length.
  - `atoi` is modelled as C defines it.
- **JPEG chunk sink** (`jpg_encode_stream` with `jpg_chunking_t`), in `jpg_chunking.dfy`. Its byte counter is a 32-bit `size_t`.
- **`/cmd` dispatch** (`cmd_handler`), in `camera_command.dfy`.
  - A pure function from the parsed query to the HTTP status and the sensor setter called.
  - The `strcmp` chain is a table of the 24 settings in source order. Lemmas show that each name selects its own setting, that an unknown name selects none, and the exact conditions for 404 and 500.
  - The key order of the `/status` report is a constant list.
- **Relay and LED handlers**, in `relays.dfy`. A `Board` class with the four `relayN_status` flags and the pin levels last written by `digitalWrite`.

`optional.dfy` holds the `Option` datatype, and `esp.dfy` the byte type and the `esp_err_t` codes the handlers share.

## Model

| member | source | states |
|---|---|---|
| RunningAverage.RaFilter.constructor | ESP32CAM_RelayControl/app_httpd.cpp:51 | The statically allocated filter starts with every field zero and no buffer, and it is Valid. |
| RunningAverage.RaFilter.Init | ESP32CAM_RelayControl/app_httpd.cpp:55-66 | The struct is zeroed first. On a successful allocation the buffer is fresh, `size` is the sample size and every slot is 0. On failure the result is false (NULL) and the filter is left zeroed with no buffer. Either way `index`, `count` and `sum` are 0 and the filter is Valid. |
| RunningAverage.RaFilter.Run | ESP32CAM_RelayControl/app_httpd.cpp:68-80 | Without a buffer it answers the input unchanged and nothing changes. Otherwise only slot `old(index)` is written and `sum` changes by the new value minus the overwritten one. `index` advances by one and wraps to 0 at `size`. `count` rises to at most `size`. The answer is the truncated mean of the last `min(calls, size)` samples; when the sum is non-negative it also equals the expression as written, `SizeTMean(sum, count)`. It keeps Valid: `size` fits a `size_t`, `sum` is the buffer's sum, `index < size` and `count <= size`. |
| RunningAverage.ConsistentInvariants | ESP32CAM_RelayControl/app_httpd.cpp:72-79 | A consistent filter has `sum` equal to the sum of the last `min(calls, size)` samples, `index < size` and `count <= size`. |
| RunningAverage.RunPreservesConsistent | ESP32CAM_RelayControl/app_httpd.cpp:72-79 | One `ra_filter_run` step maps a consistent state to the consistent state of the history extended by the new value. The new count is `min(calls + 1, size) > 0` and the new sum is the new window's sum. |
| RunningAverage.SlotsSumIsWindowSum | ESP32CAM_RelayControl/app_httpd.cpp:72-74 | The sum over the whole buffer equals the sum of the most recent `min(calls, size)` samples. |
| RunningAverage.SlotOverwritten | ESP32CAM_RelayControl/app_httpd.cpp:72-73 | The slot the next sample overwrites holds the oldest sample of a full window, and 0 before the window is full. |
| RunningAverage.RingIsMod | ESP32CAM_RelayControl/app_httpd.cpp:75-76 | The slot of the j-th sample, reached by stepping the index one at a time and wrapping, is `j % size`. |
| RunningAverage.WrapStep | ESP32CAM_RelayControl/app_httpd.cpp:75-76 | `(index + 1) % size` is 0 when `index + 1 == size` and `index + 1` otherwise. |
| RunningAverage.WindowSumIsSum | ESP32CAM_RelayControl/app_httpd.cpp:80 | The running window sum equals the sum of the window sequence, which is the last `min(calls, size)` samples. |
| RunningAverage.MeanWithinSamples | ESP32CAM_RelayControl/app_httpd.cpp:80 | The truncated mean of samples that all lie in [lo, hi] also lies in [lo, hi]. |
| RunningAverage.TruncDiv | ESP32CAM_RelayControl/app_httpd.cpp:80 | C `int` division truncates toward zero: the quotient times the divisor is within one divisor of the dividend, on the side toward zero. |
| RunningAverage.SizeTMean | ESP32CAM_RelayControl/app_httpd.cpp:80 | `sum / count` with `sum` converted to a 32-bit `size_t` gives an `int`. For a non-negative sum it is the floor of the mean. |
| RunningAverage.SizeTMeanOfNegativeSum | ESP32CAM_RelayControl/app_httpd.cpp:80 | Two samples of -10 make the expression as written yield 2147483638, while the truncated mean is -10. |
| RunningAverage.SizeTMeanAgreesOnNonNegative | ESP32CAM_RelayControl/app_httpd.cpp:80 | For a non-negative sum the expression as written equals the truncated mean. |
| RunningAverage.BoundedCanRun | ESP32CAM_RelayControl/app_httpd.cpp:72-74 | When every stored sample and the new one lie in [0, bound], and `size * bound` fits an `int`, the sum arithmetic does not overflow. |
| RunningAverage.CapacityThreeExample | ESP32CAM_RelayControl/app_httpd.cpp:68-80 | A filter of capacity 3 fed 10, 20, 30 and 40 answers 10, 15, 20 and 30. |
| Decimal.DigitsValueRender | ESP32CAM_RelayControl/app_httpd.cpp:165 | `%u` renders only digits, and reading them back gives the number. |
| Decimal.RenderLengthSizeT | ESP32CAM_RelayControl/app_httpd.cpp:165 | A 32-bit `size_t` prints in at most 10 digits. |
| Decimal.AtoiRender | ESP32CAM_RelayControl/app_httpd.cpp:234 | `atoi` reads a rendered numeral back as the number, with a leading minus as its negation, and after a leading blank unchanged. |
| Decimal.AtoiDigits | ESP32CAM_RelayControl/app_httpd.cpp:234 | `atoi` of a digit string is its value, with a leading minus its negation, and after a leading blank its value. |
| Decimal.AtoiStopsAtNonDigit | ESP32CAM_RelayControl/app_httpd.cpp:234 | `atoi` reads the digits up to the first non-digit and ignores the rest. |
| MjpegStream.StreamIteration | ESP32CAM_RelayControl/app_httpd.cpp:145-184 | One loop body yields exactly the events and the `res` of the specification functions IterationEvents and IterationResult. |
| MjpegStream.PartHeaderFits | ESP32CAM_RelayControl/app_httpd.cpp:165 | The part header for any `size_t` length is shorter than the 64-byte `part_buf`, so `snprintf` does not truncate it. |
| MjpegStream.PartHeaderContentLength | ESP32CAM_RelayControl/app_httpd.cpp:49 | The part header starts with the fixed Content-Type/Content-Length prefix, and `atoi` of what follows is the JPEG length. |
| MjpegStream.SendDiscipline | ESP32CAM_RelayControl/app_httpd.cpp:164-173 | The chunks sent form a prefix of header, body and boundary. The body goes out only if the header send succeeded. The boundary goes out only if the body send also succeeded. Nothing is sent when capture or conversion failed. Each of these is an if-and-only-if. |
| MjpegStream.ResultOfIteration | ESP32CAM_RelayControl/app_httpd.cpp:146-173 | The iteration succeeds exactly when JPEG data was obtained and all three sends succeeded. With no data the result is ESP_FAIL; otherwise it is the result of the last chunk attempted. |
| MjpegStream.ReleaseOnce | ESP32CAM_RelayControl/app_httpd.cpp:151-181 | An acquired frame is returned to the driver exactly once, and a converted JPEG copy is freed exactly once, whatever the send results. With no frame nothing happens. |
| MjpegStream.RawFrameReturnedFirst | ESP32CAM_RelayControl/app_httpd.cpp:151-154 | A non-JPEG frame goes back to the driver before anything else happens in the iteration. |
| MjpegStream.ReleaseAfterSends | ESP32CAM_RelayControl/app_httpd.cpp:164-181 | When JPEG data was obtained, the buffer holding it (camera frame or converted copy) is released as the iteration's last event, after every send. |
| MjpegStream.FirstFailureIsFirst | ESP32CAM_RelayControl/app_httpd.cpp:182-184 | Every iteration before FirstFailure succeeds, and the iteration at FirstFailure, if there is one, fails. |
| MjpegStream.TraceReleasesEveryFrame | ESP32CAM_RelayControl/app_httpd.cpp:145-196 | Over any number of iterations, frames returned to the driver equal frames acquired. |
| MjpegStream.FrameTimeInRange | ESP32CAM_RelayControl/app_httpd.cpp:185-189 | On a microsecond clock that does not run backwards, where each frame ends less than `(maxGapMs + 1) * 1000` microseconds after the previous reading, every `frame_time` after the division by 1000 lies in [0, maxGapMs]. |
| MjpegStream.StartStreamServer | ESP32CAM_RelayControl/app_httpd.cpp:549 | The stream's filter is initialised with ServerCapacity (20) slots in a freshly allocated buffer when allocation succeeds, and has no buffer otherwise. It is Valid with an empty history, and `last_frame` is 0. For every frame gap bound up to `INT_MAX / 20` the filter meets Serve's requirements, including its modifies frame. |
| MjpegStream.StartThenServeOneFrame | ESP32CAM_RelayControl/app_httpd.cpp:126-200 | A server fresh from StartStreamServer serving one frame that goes out completely (ending at 41 ms on a clock that read 1 ms on entry) answers ESP_OK with one frame served and the stream still open. The filter then holds the frame time 40 when its buffer was allocated, and nothing otherwise. |
| MjpegStream.StreamServer.constructor | ESP32CAM_RelayControl/app_httpd.cpp:133 | `last_frame` starts at 0, next to the file-level filter. |
| MjpegStream.StreamServer.Feed | ESP32CAM_RelayControl/app_httpd.cpp:190 | Feeding a frame time to the filter appends it to the filter's history when a buffer exists. Validity and the sample bound are kept. |
| MjpegStream.StreamServer.ServeFrame | ESP32CAM_RelayControl/app_httpd.cpp:145-190 | One iteration yields IterationEvents and IterationResult. On success `last_frame` becomes this frame's end time and the filter receives this frame's time. On failure neither changes. |
| MjpegStream.StreamServer.Pump | ESP32CAM_RelayControl/app_httpd.cpp:145-196 | The loop stops at the first failing iteration, with that iteration's error and the events of every iteration up to it. If none fails it returns ESP_OK with the events of all of them. `last_frame` is the end time of the last complete frame, and the filter got each complete frame's time in order. |
| MjpegStream.StreamServer.Serve | ESP32CAM_RelayControl/app_httpd.cpp:126-200 | `last_frame` is set from the clock when it is 0. A failed `set_type` returns its error at once, sends nothing and leaves `last_frame` set. Otherwise the handler serves iterations until the first failure and returns its error. `served` is the index of the first failing iteration. `last_frame` is reset to 0 on exit from the loop. The filter gets exactly the frame times of the frames that went out completely. |
| JpgChunking.ChunkSink.constructor | ESP32CAM_RelayControl/app_httpd.cpp:115 | `jchunk = {req, 0}`: the counter starts at 0 with nothing delivered. |
| JpgChunking.ChunkSink.Encode | ESP32CAM_RelayControl/app_httpd.cpp:83-93 | Index 0 resets the counter. A failed send returns 0 and counts nothing. A successful send adds the chunk length to the counter, modulo 2^32, and returns it. The counter always equals the delivered byte count modulo 2^32. |
| JpgChunking.WrapAdd | ESP32CAM_RelayControl/app_httpd.cpp:91 | Adding to a `size_t` counter that has already wrapped agrees with adding first and wrapping after. |
| JpgChunking.EncodeAll | ESP32CAM_RelayControl/app_httpd.cpp:115-118 | An encoder run that hands over any sequence of chunks in order, each at the offset of the bytes before it, with every send succeeding, delivers the chunks' bytes in order and leaves `jchunk.len` at the sum of the chunk lengths, for images under 4 GiB. |
| CameraCommand.HandleCmd | ESP32CAM_RelayControl/app_httpd.cpp:202-273 | The status is always 200, 404 or 500. When a setter is called, the status is 200 if the setter returned 0 and 500 otherwise. |
| CameraCommand.NotFoundCases | ESP32CAM_RelayControl/app_httpd.cpp:208-232 | The answer is 404 exactly when the query is empty or unreadable, or `var` or `val` is missing or does not fit its 32-byte buffer. |
| CameraCommand.ServerErrorCases | ESP32CAM_RelayControl/app_httpd.cpp:209-270 | The answer is 500 exactly in three cases: the query buffer cannot be allocated; the name is not a setting; or the setter called returns non-zero. The third case excludes framesize on a non-JPEG sensor, which calls no setter. |
| CameraCommand.LookupSetterName | ESP32CAM_RelayControl/app_httpd.cpp:238-263 | Each setting's name selects that setting: no earlier test in the chain shadows it. |
| CameraCommand.LookupSelectsNamed | ESP32CAM_RelayControl/app_httpd.cpp:238-263 | The chain selects a setting only for that setting's own name. |
| CameraCommand.LookupUnknown | ESP32CAM_RelayControl/app_httpd.cpp:238-266 | A name that is no setting's name selects nothing: the chain's `else` branch. |
| CameraCommand.SetterNamesDistinct | ESP32CAM_RelayControl/app_httpd.cpp:238-263 | The 24 names tested are pairwise different. |
| CameraCommand.CallsNamedSetter | ESP32CAM_RelayControl/app_httpd.cpp:234-263 | A well-formed request naming a setting calls that setting's setter with `atoi(val)`, except framesize on a non-JPEG sensor, which calls nothing. |
| CameraCommand.FramesizeNeedsJpeg | ESP32CAM_RelayControl/app_httpd.cpp:238-240 | framesize on a sensor that is not in JPEG format is ignored and answered with 200. |
| CameraCommand.UnknownNameIsServerError | ESP32CAM_RelayControl/app_httpd.cpp:264-270 | An unknown name reaches no setter and is answered with 500. |
| CameraCommand.LongValueNotFound | ESP32CAM_RelayControl/app_httpd.cpp:216-222 | A `val` of 32 bytes or more does not fit its buffer, so the request is a 404 whatever the name. |
| CameraCommand.StatusKeysText | ESP32CAM_RelayControl/app_httpd.cpp:283-305 | The `/status` keys, in the order of the JSON object. |
| CameraCommand.StatusKeysSettable | ESP32CAM_RelayControl/app_httpd.cpp:283-305 | Every reported key is a name `/cmd` accepts, and it selects the setting reported under it. |
| CameraCommand.StatusKeysDistinct | ESP32CAM_RelayControl/app_httpd.cpp:283-305 | The report has 23 keys, no two alike. |
| CameraCommand.VflipNotReported | ESP32CAM_RelayControl/app_httpd.cpp:283-305 | vflip is the only setting `/cmd` accepts that `/status` does not report. |
| Relays.Board.constructor | ESP32CAM_RelayControl/app_httpd.cpp:28-31 | Every relay flag starts false and no pin has been written. The board is Valid: every written relay pin matches its flag. |
| Relays.Board.Toggle | ESP32CAM_RelayControl/app_httpd.cpp:391-451 | The relay's flag is inverted and its pin is written to the new flag (HIGH exactly when on). Other flags and pins are unchanged. The reply is "OK" and the board stays Valid. |
| Relays.Board.LedOn | ESP32CAM_RelayControl/app_httpd.cpp:453-458 | The LED pin is driven HIGH, no relay flag changes and the reply is "OK". |
| Relays.Board.LedOff | ESP32CAM_RelayControl/app_httpd.cpp:459-464 | The LED pin is driven LOW, no relay flag changes and the reply is "OK". |
| Relays.ToggleTwice | ESP32CAM_RelayControl/app_httpd.cpp:391-405 | Two requests to the same relay restore every flag, and the relay's pin is left at the original flag. |

## Left out

- The ESP-IDF HTTP server, the camera driver, the sensor setters and the JPEG encoder (`frame2jpg`, `frame2jpg_cb`) are foreign calls. Their results are inputs: an `Outcome` per stream iteration, the query as parsed by the server, the setter's return value, and the send result handed to the chunk sink.
- What `httpd_resp_send*` returns in `cmd_handler` and in the relay handlers is not modelled. The model gives the HTTP status and the "OK" body instead.
- The `httpd_resp_set_hdr` calls (CORS headers, `X-Framerate`, `Content-Disposition`) are not modelled; they only add response headers.
- `esp_timer_get_time` is not a real clock. The time on entry to the stream handler and each frame's end time are inputs.
- MjpegStream.StreamServer.Serve: requires the microsecond clock to run forward with each frame ending less than `(maxGapMs + 1) * 1000` microseconds after the previous reading, for a `maxGapMs` that fits an `int` and keeps the filter's sum in range. So the narrowing of the 64-bit `frame_time` to `int` is exact, and the filter's signed sum cannot overflow. A clock outside that range is not covered.
- RunningAverage.RaFilter.Init: requires `sampleSize` below 2^32, the range of `size_t`. The wrap-around of `sample_size * sizeof(int)` in the `malloc` argument is not modelled; allocation succeeds or fails as `allocOk` says.
- RunningAverage.RaFilter.Run: requires the sum arithmetic to stay within `int` (signed overflow is undefined in C). It also requires `size > 0` whenever a buffer exists: with `malloc(0)` succeeding, the code would take `% 0` at line 76. The code is followed there, rather than treating a zero-capacity filter as the identity.
- The `Serial` diagnostics and the `1000.0 / ...` fps values are left out: they are logging and floating point. `avg_frame_time` is used only in that logging, so Feed computes it and discards it.
- `capture_handler` itself is left out; only its use of `jpg_encode_stream` is modelled (ChunkSink, EncodeAll).
- `status_handler`'s `sprintf` into a 1024-byte buffer is left out; only the order of its keys is modelled.
- `index_handler` (a static HTML page) and `startCameraServer` (handler registration and ports) are left out, except its `ra_filter_init(&ra_filter, 20)`, which StartStreamServer models.
- `atoi` overflow for numerals beyond `int` is undefined behaviour in C and is not modelled; `Atoi` yields the mathematical value.
- The relay and LED pin numbers are set in the sketch that declares `Relay1` ... `gpLed`, which is not part of this model; they are constructor parameters, required distinct.
- Concurrency between handler tasks, including the unsynchronised globals `relayN_status`, `ra_filter` and `last_frame`, is left out. Each handler runs alone.
- Stream loop: the model serves a finite sequence of iteration outcomes. If all of them succeed it reports the stream as still open (`ended` false), rather than modelling an infinite `while (true)`.

## Findings

| source | as written | input that shows it | evidently intended | confidence | as-written member | corrected member |
|---|---|---|---|---|---|---|
| ESP32CAM_RelayControl/app_httpd.cpp:80 | `filter->sum / filter->count` divides an `int` by a `size_t`, so on the 32-bit target `sum` is converted to unsigned before dividing | two samples of -10: `sum` is -20 and `count` is 2, and the result is 2147483638 | the truncated signed mean, -10 | not executed | RunningAverage.SizeTMeanOfNegativeSum | RunningAverage.RaFilter.Run |

The stream handler only feeds frame times that are non-negative on a forward-running clock. For those, SizeTMeanAgreesOnNonNegative shows that the expression as written and the corrected mean coincide, and RaFilter.Run's contract states that its answer equals the expression as written whenever the sum is non-negative.
