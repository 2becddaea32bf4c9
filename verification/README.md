# Verification models of Kirin Desk's protocol and state-machine cores

Kirin Desk is a remote desktop. This project models the parts of it that carry invariants, in
Dafny, and proves what they keep:

- **DNS** (`DnsName`, `DnsMessage`, `DnsReading`, `Hostname`, `HostnameText`): names with compression
  pointers and messages of RFC 1035 (sections 3.1, 3.3.14, 3.4.1, 4.1), AAAA of section 2.2 of
  RFC 3596, SRV of RFC 2782. A tree of labels and pointers is the partner of the name decoder, a
  printer of messages and a layout of sections over the bytes are the partners of the parser;
  positions in the text are the partner of the host name rules.
- **Secure resolver** (`ResolverSpec`, `ResolverRuns`, `SecureResolver`): cache and the ordered
  endpoint loop with its time budget.
- **Tile change detection** (`TileCrc`, `TileContextSpec`, `TileContextRuns`, `TileContext`) and the
  byte run-length code for dirty maps (`Rle`). The CRC has the polynomial and the complements of
  section 8 of RFC 1952.
- **Window pipeline** (`WindowSpec`, `WindowRuns`, `WindowPipeline`, `WindowPackets`): buffering,
  gating, dropping, intra frame requests and resolution changes.
- **Keyboard hook** (`KbdHook`) and **input injector** (`InjectorSpec`, `InjectorRuns`,
  `InputInjector`): who gets a key, who owns a modifier, when a pointer move is injected.
- **DDNS engine** (`DdnsSpec`, `DdnsRuns`, `DdnsEngine`): guarded, change-driven writes and the
  pause after failures.
- **Client session** (`SessionSpec`, `SessionRuns`, `SessionLoop`): degrade to TCP by redial and hot
  swap, and the idle watchdog; **Liveness** adds the server's keepalive and connects the two, for
  TCP and for QUIC.

Where the source changes objects or buffers step by step, a class or an array method does the
same here and is proved equal to a step function (the `...Spec` modules); the theorems about whole
runs are lemmas about those functions (the `...Runs` modules). `dafny verify dfyconfig.toml` checks
everything.

## How the outside world appears

- Texts are byte strings. Clocks, resolver and provider outcomes, the encoder, the cursor, the
  frequency gate, GPU and memory failures are inputs of the steps, so each theorem holds for
  every behaviour of them that the step admits. Times are whole milliseconds.
- An encoded frame is the call made to the encoder: pixels, aligned size, forced or not. In the
  packet conversion the NAL units are inputs.
- A captured frame holds four bytes for every pixel, and sizes in bytes fit the machine's words.
- Modifiers and buttons are sets of the defined bits. The frame ratio and the tile ratio are
  reals; five percent is the fraction 1/20.
- Over TCP the client hears every packet; over QUIC only media. A send takes the time it blocks,
  during which the server's loop stands still, and counts at the moment it returns.
- In the hook, the callback is two steps (up to the sink lock, and under it) between which the
  interface thread may act. In the session, a redial and a punch source are steps of their own.
- DDNS addresses are compared as values; a record without an address text is `None`.
- A tile frame is given by its tile hashes; `OneChangeIsSeen` connects them to samples. A failed
  creation of buffers is described by whether it got past the first buffer.

## Where code and comments differ

The models follow the code.

- `libkirin_gpu/src/internal.h:20-24` describes a run-length format in which a count of 0 means 256;
  the code never writes 0 and decodes 0 to nothing.
- `media/src/window_pipeline.rs:590` calls the first frame of a window an intra frame; see
  `KeyFlagIsRightIff`. `media/src/window_pipeline.rs:205-213` says that a forced frame is delivered
  at once; see `KeyFrameIsEncodedIff` and `SizeChangeTakesTheRequest`.
- `media/src/session.rs:1395-1397` says that the kept baseline prevents a false alarm right after a
  swap; see `SwapIsFatalIff` and `SlowDialIsFatalIff`. `media/src/session.rs:1298` takes three times the keepalive
  period to be safe; see `TcpIsSafeIff` and `FailuresStarve`. In the source, `last_outbound_media`
  moves only with a keepalive.
- `media/src/session.rs:1295-1298` and `media/src/session.rs:1568-1570` say that keepalives keep a normal session from
  being given up. Over QUIC they stay in the control stream, which the client's loop does not read
  (`media/src/transport/transport.rs:64-66`); see `QuicIsSafeIff` and `StaticScreen`.
- `media/src/session.rs:899-911` prepares for silent windows; see `NoWindowIsSilent`.
- `input/src/kbd_hook.rs:1310-1319` describes suppression of repeated reinstalling; see
  `GivingUpIsUnreachable`. `input/src/kbd_hook.rs:409-413` expects a swallowed release to belong to
  a swallowed press; see `F4ReleaseIsSwallowedIff`.
- `input/src/injector.rs:787-794` says that a modifier held by key events is lifted only by its own
  release; combinations and the numpad star lift it too, see `PeerStaysDownIff`.
- `dns/src/ddns.rs:16-17` promises a pause after three failures in a row; a failed write of an unchanged
  address is not a failure in the next round, see `FailureIsForgottenIff` and
  `PauseNeedsThreeNewAddresses`.
- `libkirin_gpu/src/d3d11_context.cpp:158-162` passes 16 bytes as the source of a whole-buffer
  update; it is modelled as the zero fill its comment intends.

## Model

| member | source | states |
|---|---|---|
| DnsName.DecodeIff | dns/src/secure_resolver.rs:525-556 | For arbitrary bytes and position the decoder returns exactly what a well-formed name of at most ten pointers laid out there says, labels and next position; everything else is rejected. |
| DnsName.LayoutUnique | dns/src/secure_resolver.rs:531-553 | A position of a buffer carries at most one name, so there is no second reading. |
| DnsName.CycleIsRejected | dns/src/secure_resolver.rs:535-547 | If the bytes read from a position ever lead back to a position read before, by pointers or labels in any mixture, the name is rejected. |
| DnsName.NameRoundTrip | dns/src/secure_resolver.rs:525-556 | A name written anywhere in a buffer, in full or ending in a pointer to the rest of it, with at most ten hops in all, is read back as its labels, ending just behind its own bytes. |
| DnsName.DecodeName | dns/src/secure_resolver.rs:525-556 | The cursor loop computes that decoding; it ends by (jumps left, bytes left) and never reads outside the buffer. |
| DnsName.Cursor.ReadU16 | dns/src/secure_resolver.rs:495-499 | Big-endian read that keeps a consumed first byte when the second is missing. |
| DnsName.TrimDots | dns/src/secure_resolver.rs:638 | The longest prefix that does not end in a dot; only dots are cut. |
| DnsMessage.ParseReturnsTheAnswers | dns/src/secure_resolver.rs:559-702 | Any message printed from questions and answers (literal or compressed names, any authority and additional bytes behind) with the same id, no error code and a non-empty section parses to exactly the answers of the requested type, in order, TXT chunks joined, SRV targets read from the whole message. |
| DnsMessage.PointersToTheQuestionAreGood | dns/src/secure_resolver.rs:885-969 | The usual compressed response, every owner a pointer to offset 12, meets the conditions of that theorem for every name and every list of answers. |
| DnsMessage.FirstNameIsLaid | dns/src/secure_resolver.rs:589-596 | The name of the first question lies at offset 12 of every printed message. |
| DnsReading.ParseIff | dns/src/secure_resolver.rs:559-702 | For arbitrary bytes, every type and id, about the bytes alone: a message is accepted, with exactly these records, if and only if it has 12 bytes, starts with the id, has no error code, announces something, its questions and answers are laid out, and the data of the answers with number 1, 28, 16 or 33 of the type fit; otherwise it is refused with exactly the error of the first thing that is wrong. |
| DnsReading.AnswersIff | dns/src/secure_resolver.rs:599-627 | The same for the answer section alone: which records, or which first error. |
| DnsReading.TextIff | dns/src/secure_resolver.rs:654-668 | TXT data are accepted, with this text, if and only if they are chunks behind their lengths whose contents join to it. |
| DnsReading.NameErrorIsRefused | dns/src/secure_resolver.rs:568-580 | A name error asked for under another id is refused for the id, and under its own for its code. |
| DnsReading.BadHeaderIsRefused | dns/src/secure_resolver.rs:564-587 | Whatever follows a header that is not good, its first error is the answer. |
| DnsMessage.ParseWireResponse | dns/src/secure_resolver.rs:559-628 | The two loops over arbitrary bytes return the specified records or the specified error of the first thing that is wrong. |
| DnsMessage.RecordFromRData | dns/src/secure_resolver.rs:631-702 | Typed record or error for every type and every rdata, the SRV target taken at its offset in the message. |
| DnsMessage.JoinTxt | dns/src/secure_resolver.rs:654-668 | The loop joins the length-prefixed chunks, or fails when one is cut off. |
| Hostname.ValidateHostname | dns/src/validate.rs:45-60 | Accepts exactly the names whose labels are all valid, whose length is at most 253 after one final dot, and whose last label is not all digits. |
| HostnameText.HostnameIff | dns/src/validate.rs:45-98 | For every text, about its positions: accepted if and only if without one final dot it has 1 to 253 characters, all letters, digits, hyphens or dots, begins and ends with a letter or digit, has no dot next to a dot or hyphen, a dot in every 64 characters in a row, and something else than digits behind its last dot. |
| Hostname.JoinSplit | dns/src/validate.rs:52-58 | Splitting at dots and joining again gives the text back, for every text; no part contains a dot. |
| Hostname.QueryNameReadsBack | dns/src/secure_resolver.rs:449-476 | For every text at all: the name in the query reads back as the text's non-empty labels and ends four bytes before the end if and only if every label is shorter than 192 bytes (the length byte truncates and collides with the pointer tag). |
| Hostname.HostnameQuery | dns/src/secure_resolver.rs:449-476 | For every accepted name the encoded name is two bytes longer than the name without its final dot and at most 255, the query at most 271 bytes so that its 16-bit frame length is exact, decoding at offset 12 gives the name back and the query parses as an empty response. |
| Hostname.EncodeName | dns/src/secure_resolver.rs:449-461 | The loop writes the non-empty labels with the low eight bits of their lengths, and a zero. |
| Hostname.BuildQuery | dns/src/secure_resolver.rs:464-476 | Header, encoded name, type and class, in the order the query specification gives. |
| ResolverRuns.ResolveIs | dns/src/secure_resolver.rs:245-319 | A well-formed question is answered from a cache entry younger than the TTL, otherwise by the first endpoint, DoH before DoT, that answers within its own limit and the rest of 15 s; it fails if and only if none does, with "timed out" if and only if the time was used up before some endpoint; it never takes longer than 15 s; a failure changes neither cache nor last endpoint. |
| ResolverRuns.CacheIsHonest | dns/src/secure_resolver.rs:323-343 | After any run of calls every cache entry is the answer the first answering endpoint gave to a call for that very key, with the moment it came. |
| ResolverRuns.SameKeyIff | dns/src/secure_resolver.rs:250-264 | Two names, with whatever blanks around and dots behind them, share a cache entry if and only if they are equal up to 65..90 against 97..122. |
| ResolverRuns.OldAnswersAreNotGiven | dns/src/secure_resolver.rs:261-319 | After any run with a clock that does not go back a question is answered at once, as last time, if and only if an endpoint has answered it less than the TTL before; otherwise the endpoints are asked and only they can answer. |
| ResolverRuns.CacheIsLastAnswer | dns/src/secure_resolver.rs:323-343 | In every such run the cache holds exactly the last answer an endpoint gave for each key. |
| ResolverRuns.RefusedAtOnce | dns/src/secure_resolver.rs:250-261 | An empty name or an unsupported type is refused without asking, waiting or changing anything. |
| SecureResolver.TryInTwo | dns/src/secure_resolver.rs:275-311 | The DoH loop followed by the DoT loop behaves as one loop over both lists. |
| SecureResolver.Resolver.ResolveHost | dns/src/secure_resolver.rs:245-319 | The object does exactly the specified step: new cache, last endpoint, result and end time. |
| SecureResolver.Resolver.TryEndpoints | dns/src/secure_resolver.rs:275-311 | The two loops compute the specified outcome and time. |
| Rle.RoundTrip | libkirin_gpu/src/blit_rle.cpp:25-57 | Decoding undoes encoding for every byte string. |
| Rle.EncodedIsShortest | libkirin_gpu/src/blit_rle.cpp:25-40 | No pair string that decodes to the same data is shorter than the encoder's output. |
| Rle.TwiceTheLengthSuffices | libkirin_gpu/src/blit_rle.cpp:25-40 | The output never exceeds twice the input length. |
| Rle.EncodedLength | libkirin_gpu/src/blit_rle.cpp:25-40 | The output is exactly two bytes for each run, so with `Rle.Encode` a non-empty input succeeds if and only if the capacity is at least twice its number of runs. |
| Rle.SuffixNeedsNoMore | libkirin_gpu/src/blit_rle.cpp:30-38 | A suffix never needs more runs than the whole. |
| Rle.CapacityTestIsExact | libkirin_gpu/src/blit_rle.cpp:52 | The decoder's 32-bit test is exact at every reachable offset and count if and only if the capacity is at most 2^32 - 256. |
| Rle.SumAlwaysFitsIff | libkirin_gpu/src/blit_rle.cpp:52-54 | Its running sum wraps for no pair string at all if and only if the capacity is at most 2^32 - 256. |
| Rle.Encode | libkirin_gpu/src/blit_rle.cpp:25-40 | Returns the full length and writes exactly the code if the capacity is at least twice the number of runs, otherwise 0; whole pairs written before a failure stay, nothing else changes. |
| Rle.Decode | libkirin_gpu/src/blit_rle.cpp:44-57 | For all inputs: says whether the code leaves the buffer, which is exactly when its running sum wraps; otherwise it fails if and only if a pointer is null, the length is odd, or the data do not fit or have exactly as many bytes as the error code, and else writes exactly the data and leaves the rest. |
| Rle.MeasureRun | libkirin_gpu/src/blit_rle.cpp:31-33 | The inner loop finds the leading run, cut at 255. |
| TileCrc.OneThreadChangeIsDirty | libkirin_gpu/src/tile_hash_hlsl.h:75-96 | Of two tiles that differ in one thread's colour only, however little, the CRCs differ and the tile is dirty. |
| TileCrc.DirtyIff | libkirin_gpu/src/tile_hash_hlsl.h:121-133 | A tile is dirty if and only if a sum moved by more than 6 or the CRC of the exclusive or of the two sample strings is non-zero from a zero start; equal tiles are never dirty. |
| TileCrc.CheckValue | libkirin_gpu/src/tile_hash_hlsl.h:75-96 | The check value of this CRC for the nine digits from 1, with complements, and their sums. |
| TileCrc.BurstShows | libkirin_gpu/src/tile_hash_hlsl.h:41-46 | A change confined to four consecutive bytes, at any place in strings of any length, always changes the CRC. |
| TileCrc.CollisionIff | libkirin_gpu/src/tile_hash_hlsl.h:41-46 | From one start value two strings collide if and only if their difference folds zero to zero. |
| TileCrc.FoldLinear | libkirin_gpu/src/tile_hash_hlsl.h:41-46 | The fold is linear over exclusive or in register and data together. |
| TileCrc.RoundIsUndone | libkirin_gpu/src/tile_hash_hlsl.h:43-44 | One bit round can be undone, so it is a bijection of 32-bit words. |
| TileCrc.RoundByMask | libkirin_gpu/src/tile_hash_hlsl.h:44 | The branch-free mask of the shader is that round. |
| TileCrc.SumsFit | libkirin_gpu/src/tile_hash_hlsl.h:83-93 | The three sums stay at most 255 times the number of samples, far from 32-bit wrap. |
| TileCrc.Crc32Step | libkirin_gpu/src/tile_hash_hlsl.h:41-46 | The shader's loop computes eight rounds of the specification. |
| TileCrc.ReduceTile | libkirin_gpu/src/tile_hash_hlsl.h:83-96 | The reduction over the shared arrays computes the hash the theorems speak of. |
| TileContextRuns.StaticIff | libkirin_gpu/src/tile_hash.cpp:131-149 | After any run of frames and resolution changes with successful allocations, a frame that gets through is static if and only if no tile differs from the last counted frame of its resolution (zeros if none). |
| TileContextRuns.NewSizeIsStaticIff | libkirin_gpu/src/d3d11_context.cpp:158-162 | The first frame of a new resolution is static if and only if all of its sums are at most 6 and its CRCs zero. |
| TileContextRuns.BaselineIsKept | libkirin_gpu/src/d3d11_context.cpp:176-224 | In every such run the comparison buffer is the hashes of the last frame that passed the count readback since the resolution last changed, or zeros. |
| TileContextRuns.BitmapIsRight | libkirin_gpu/src/tile_hash.cpp:134-178 | A returned bitmap has one entry per tile, set if and only if the tile is dirty; its ones over the total are the reported ratio, and decide below or above five percent. |
| TileContextRuns.GridCoversThePicture | libkirin_gpu/src/d3d11_context.cpp:176-184 | Whenever a grid is reported, each pixel of the picture is in one of its 64-pixel tiles, no row or column of tiles lies outside, and a bitmap has one entry for each tile. |
| TileContextRuns.SuccessReportsTheGrid | libkirin_gpu/src/tile_hash.cpp:148-153 | A call that succeeds reports a grid. |
| TileContextRuns.OneChangeIsSeen | libkirin_gpu/src/tile_hash.cpp:95-178 | One changed thread sample in one tile since the last counted frame makes the decision non-static and sets that tile's bit. |
| TileContextRuns.BitmapIsGivenIff | libkirin_gpu/src/tile_hash.cpp:160-178 | Once a frame is counted its bitmap is given if and only if something moved and scratch memory, readback and mirror are there; the code says which was not. |
| TileContextRuns.FailureIsAtRest | libkirin_gpu/src/tile_hash.cpp:75-132 | A frame that is not counted leaves the outputs cleared, with the code of the first thing that failed. |
| TileContextRuns.RepeatIsStaticIff | libkirin_gpu/src/tile_hash.cpp:131-149 | The same picture again is static if and only if the earlier call passed the count readback or nothing had moved, whether or not its bitmap was delivered. |
| TileContextRuns.ChangeCanBeLost | libkirin_gpu/src/tile_hash.cpp:148-169 | A frame whose bitmap readback fails is an error, and the same picture next time is static: that change is never reported. |
| TileContextRuns.PassesUnreadyIff | libkirin_gpu/src/d3d11_context.cpp:98-184 | After any run, failures included, a frame gets past the size check without complete buffers if and only if it has the present resolution and the last attempt to make buffers failed after the first one. |
| TileContextRuns.BuffersAreAsLastMade | libkirin_gpu/src/d3d11_context.cpp:98-184 | In every run the buffers are complete, partial or absent as the last attempt to make them left them. |
| TileContextRuns.MirrorStaysMissing | libkirin_gpu/src/d3d11_context.cpp:228-235 | After one failed allocation the mirror stays missing for every frame that needs no more than was asked for. |
| TileContext.Context.KgpuTileHash | libkirin_gpu/src/tile_hash.cpp:72-178 | The whole call on the buffers does exactly the specified step and gives the specified outputs; views and buffers stay paired. |
| TileContext.Context.DiffPass | libkirin_gpu/src/tile_hash_hlsl.h:121-133 | The bitmap is the tilewise comparison of the two buffers behind the read views and the counter its number of ones. |
| TileContext.Context.SwapHashBuffers | libkirin_gpu/src/d3d11_context.cpp:211-224 | Buffers change places and every view follows its buffer. |
| TileContext.Context.EnsureGridFor | libkirin_gpu/src/d3d11_context.cpp:98-184 | Buffers are remade and cleared when the size changes, as specified for complete and partial success. |
| WindowRuns.RunKeepsInv | media/src/window_pipeline.rs:140-521 | Over every run of pushes, flushes and setting changes each pushed frame is still buffered or has exactly one fate (encoded, stale, skipped, over budget, lost); window ids are 0, 1, 2, ...; a window holds exactly the frames encoded into it, in order, all of one size, and is never empty. |
| WindowRuns.LowLatencyIsOneByOne | media/src/window_pipeline.rs:205-303 | With low latency on from the start at most one frame waits and every window is built from exactly one. |
| WindowRuns.FrameClosesIff | media/src/window_pipeline.rs:200-270 | With the gate open an ordinary frame that joins the buffer closes the window if and only if low latency is on, the window is at least durationMs old, the frame makes maxFrames, or the frame before it is at least idleMs ago. |
| WindowRuns.OtherFramesCloseIff | media/src/window_pipeline.rs:176-223 | With the gate closed it never does; a forced frame or one of another size always does. |
| WindowRuns.FlushClosesIff | media/src/window_pipeline.rs:306-333 | A flush sends exactly a non-empty buffer, a timed one exactly when it is also due. |
| WindowRuns.FewWaitAlways | media/src/window_pipeline.rs:236-269 | Over every run with an open gate fewer than maxFrames frames wait, or the one that changed the size. |
| WindowRuns.FewWait | media/src/window_pipeline.rs:236-269 | After each push fewer than maxFrames wait; after a change of size at most one. |
| WindowRuns.FirstFrameWaits | media/src/window_pipeline.rs:71-93 | A new pipeline is in batch mode: its first ordinary frame waits. |
| WindowRuns.FirstFrameIsPlain | media/src/window_pipeline.rs:71-93 | In low latency mode it goes out alone, without being forced, and leaves no request. |
| WindowRuns.SizeChangeIs | media/src/window_pipeline.rs:176-197 | After a frame of another size it waits alone, from its own time on; if the old window fails to encode it is lost too. |
| WindowRuns.SettingsTakeEffect | media/src/window_pipeline.rs:101-103 | Low latency and frame ratio hold from the next frame on. |
| WindowRuns.EveryKeyFrameMakesAWindow | media/src/window_pipeline.rs:205-223 | Over any run of forced frames of one size that no encoder rejects each makes its own window. |
| WindowRuns.StrideIsLeast | media/src/adaptive/adjuster.rs:83-90 | For a ratio between 0.2 and 1 the distance k of kept frames has (k - 1) ratio < 1 <= k ratio; at 0.2 and below only the first is kept. |
| WindowRuns.KeptAt | media/src/adaptive/adjuster.rs:88-89 | The kept frames are those at the multiples of that distance. |
| WindowSpec.Align | media/src/window_pipeline.rs:400-402 | The least multiple of 16 that is at least the size and at least 64. |
| WindowSpec.CallPixels | media/src/window_pipeline.rs:404-422 | What is encoded of a frame: its pixels in their rows, zeros up to the aligned size. |
| WindowRuns.NoWindowIsSilent | media/src/session.rs:667-678 | No call of the pipeline returns an empty window, so the silent output of the session never occurs. |
| WindowRuns.WindowsStartWithIdr | media/src/window_pipeline.rs:362-498 | In batch mode every returned window starts with an intra frame; a pending request makes all of its frames intra. |
| WindowRuns.SkippingMakesTheNextWindowIdr | media/src/window_pipeline.rs:426-434 | After an encode, failed or not, with a frame ratio below one the next window, however much later and after however many failures at such a ratio, is all intra. |
| WindowRuns.RequestAfterEncode | media/src/window_pipeline.rs:362-434 | After any encode, failed or not, a request is pending if and only if the frame ratio is below one; so a failure at full ratio loses the request. |
| WindowRuns.KeyFrameLeavesAtOnce | media/src/window_pipeline.rs:205-223 | A forced frame that meets a buffer of its own size closes the window in the same call past the gate; that window is all intra, and in low latency mode it is that frame alone. |
| WindowRuns.KeyFrameIsEncodedIff | media/src/window_pipeline.rs:426-498 | The forced frame itself is encoded if and only if the stride of the frame ratio hits the newest frame of the buffer and no call up to it is rejected by the encoder or finds the budget spent. |
| WindowRuns.KeyFrameCanBeSkipped | media/src/window_pipeline.rs:205-223 | At half the frames a forced frame that finds one waiting is left out of the window it forced. |
| WindowRuns.SizeChangeTakesTheRequest | media/src/window_pipeline.rs:170-197 | A forced frame that changes the resolution gives its request to the old window; the new one keeps none unless the frame ratio asks again. |
| WindowSpec.PadByte | media/src/window_pipeline.rs:525-540 | Every byte of a padded picture is the source byte of the same row and offset, or zero. |
| WindowPipeline.SelectFrames | media/src/adaptive/adjuster.rs:83-90 | The kept indices: the first only at a ratio of at most 0.2, otherwise every ceil(1/ratio)-th. |
| WindowPipeline.PadRgba | media/src/window_pipeline.rs:525-540 | The row copy into a zeroed buffer gives the padded picture. |
| WindowPipeline.Pipeline.PushFrame | media/src/window_pipeline.rs:140-270 | The object keeps the invariant of every run and does exactly the specified step, in all arms. |
| WindowPipeline.Pipeline.SetLowLatency | media/src/window_pipeline.rs:101-103 | Only the mode changes, and the invariant of every run survives it. |
| WindowPipeline.Pipeline.UpdateEncodeConfig | media/src/window_pipeline.rs:336-338 | Only the frame ratio changes, likewise. |
| WindowPipeline.Pipeline.FlushWindow | media/src/window_pipeline.rs:306-311 | An empty buffer gives nothing; any other is encoded past the gate. |
| WindowPipeline.Pipeline.FlushWindowIfExpired | media/src/window_pipeline.rs:322-333 | A due, non-empty window goes out past the gate; otherwise nothing changes. |
| WindowPipeline.Pipeline.EncodeCurrentWindow | media/src/window_pipeline.rs:360-521 | Frames, flags, id and books after an encode, on success, on error and on a spent budget. |
| WindowPackets.PacketsAreTheFrames | media/src/window_pipeline.rs:559-595 | Each packet stands for one frame with bytes, each such frame has one, in order. |
| WindowPackets.FlatHoldsAll | media/src/window_pipeline.rs:576-580 | The bytes of a frame hold all its units, each behind those before it, and nothing else. |
| WindowPackets.StampsAreOrdered | media/src/window_pipeline.rs:584-585 | Time stamps never run backwards and are at least 33 ms apart until they saturate. |
| WindowPackets.StampIs | media/src/window_pipeline.rs:585 | The stamp is the base and 33 ms for each frame before, up to the end of 64 bits. |
| WindowPackets.KeyFlagIsRightIff | media/src/window_pipeline.rs:559-595 | For every window and whatever bytes its frames gave: the key flag of all its packets is what the encoder was told if and only if the first frame, if it has a packet, was forced and after a request no other frame has one; when the first frame gave no bytes no packet carries the flag. |
| WindowPackets.WindowToPackets | media/src/window_pipeline.rs:559-595 | The loops compute those packets. |
| KbdHook.EveryKeyGoesToOneSide | input/src/kbd_hook.rs:1060-1200 | Under every interleaving of the callback with sink and gate changes, as long as no channel is closed each finished event of a forwarded key is sent once and swallowed, or passed on; channels and desktop get theirs in callback order. |
| KbdHook.RunKeepsInv | input/src/kbd_hook.rs:1060-1200 | The same for every run, channels closing included. |
| KbdHook.KeyIsLostIff | input/src/kbd_hook.rs:1155-1194 | A forwarded key is lost if and only if it is sent while the sink's channel is closed. |
| KbdHook.AltFollowsTheKeys | input/src/kbd_hook.rs:372-375 | After any run the Alt bit is down if and only if the last physical event of either Alt key was a press. |
| KbdHook.ForwardedKeysAre | input/src/kbd_hook.rs:489-498 | The five keys by scan code and extended bit. |
| KbdHook.AltF4IsSentOnce | input/src/kbd_hook.rs:387-421 | With Alt held F4 sends one press and release, however often it repeats, its release nothing more, and the desktop sees none of it. |
| KbdHook.PlainF4IsPassedOn | input/src/kbd_hook.rs:414-420 | F4 without Alt is passed on and clears the marker. |
| KbdHook.DetachedChannelIsSilent | input/src/kbd_hook.rs:1523-1533 | Once the sink was taken away or moved, the old channel receives nothing more, even from a callback under way. |
| KbdHook.F4ReleaseIsSwallowedIff | input/src/kbd_hook.rs:387-421 | The release of an F4 whose press reached the desktop, with any callbacks of other keys and any sink and gate changes between, is swallowed if and only if it meets the Alt+F4 gate with the marker left by a press that could not be sent or by another mode. |
| KbdHook.F4ReleaseCanBeSwallowed | input/src/kbd_hook.rs:1143-1194 | A run from the start in which that happens. |
| KbdHook.KeyIsLeftDownIff | input/src/kbd_hook.rs:1060-1200 | After a forwarded key was sent pressed and then released here, with anything not about the key in between, its channel still has it down if and only if the release did not go to the same open channel; the desktop sees that release alone if and only if gate or sink had gone. |
| KbdHook.FocusLossLeavesKeyDown | input/src/kbd_hook.rs:1496-1533 | Losing the focus between press and release leaves the key down at the far end. |
| KbdHook.NewestAfterPush | input/src/kbd_hook.rs:1117-1128 | Dropping the oldest and appending keeps the newest 128 hits: the last ones, as many as came up to 128. |
| KbdHook.ReinstallIff | input/src/kbd_hook.rs:1268-1334 | After any ticks one reinstalls the hook if and only if it comes half a minute after the one before, there was input with the gate open and no callback, and no reinstall has failed yet. |
| KbdHook.GivingUpIsUnreachable | input/src/kbd_hook.rs:1302-1334 | In no run of ticks is the branch taken that gives up reinstalling the hook. |
| KbdHook.HookShared.Decide | input/src/kbd_hook.rs:1085-1144 | First half of the callback: ring, decision and the two bits. |
| KbdHook.HookShared.Send | input/src/kbd_hook.rs:1160-1197 | Second half under the sink lock: effects and return value. |
| KbdHook.HookShared.DrainHits | input/src/kbd_hook.rs:1558-1564 | Returns the newest 128 hits since the last drain and empties the ring. |
| KbdHook.HookShared.SetTheSink | input/src/kbd_hook.rs:1523-1533 | Only the sink changes. |
| KbdHook.HookShared.SetTheGate | input/src/kbd_hook.rs:1496-1498 | Only the gate changes. |
| InjectorRuns.ModsAgreeAlways | input/src/injector.rs:689-827 | Over every orderly run (modifier injections work, combinations come when their modifiers are up) the modifiers pressed for flags and those pressed by key events, the Shift of a numpad star among them, are disjoint and together exactly what is down. |
| InjectorRuns.PeerStaysDownAlways | input/src/injector.rs:665-827 | Over every run, failing injections included, in which no released star meets a Shift that the peer holds and no combination a modifier that it holds, each modifier the peer holds by its own key events stays down and none is lifted by synchronisation. |
| InjectorRuns.PeerStaysDownIff | input/src/injector.rs:517-531 | One step takes away something the peer holds if and only if it is such a star or such a combination and reaches the system. |
| InjectorRuns.PeerFollowsItsKeys | input/src/injector.rs:665-686 | A modifier is the peer's from its own press, once that has worked, to its own release. |
| InjectorRuns.AskedModifiersAreDown | input/src/injector.rs:712-827 | When an event is dispatched every modifier it asks for besides its own is down, this injector holds none not asked for, and held ones are untouched. |
| InjectorRuns.SyncAchieves | input/src/injector.rs:211-215 | The same about one synchronisation, from any state in which the books agree. |
| InjectorRuns.ComboKeepsModsIff | input/src/injector.rs:698-702 | A special combination keeps that agreement if and only if none of its modifiers is down. |
| InjectorRuns.ComboCanLoseAModifier | input/src/injector.rs:698-702 | After Ctrl+Esc a flagged key is dispatched without the Ctrl it asks for. |
| InjectorRuns.ReleaseLeavesNothingDown | input/src/injector.rs:909-933 | After any run of one-button events a working release leaves no button or modifier down, and a second one changes nothing. |
| InjectorRuns.SeveralButtonsStickIff | input/src/injector.rs:743-750 | An event that lifts several buttons leaves nothing for a later release to miss if and only if the others were up already. |
| InjectorRuns.ScaleIsInRange | input/src/injector.rs:545-552 | The scaled coordinate is inside the target, is the quotient rounded down, and is unchanged between equal resolutions. |
| InjectorRuns.InjectedMoveIsItsOwn | input/src/injector.rs:756-784 | An injected move carries its own scaled coordinates, inside the target. |
| InjectorRuns.SuspensionStartsIff | input/src/injector.rs:862-885 | A move that can be compared starts a suspension of two seconds if and only if pointer and baseline are more than eight pixels apart, either way, on one axis. |
| InjectorRuns.LocalActivitySuspendsMoves | input/src/injector.rs:862-885 | Such a move is dropped, and no move is injected in the next 2000 ms whatever events follow. |
| InjectorRuns.MoveIsInjectedIff | input/src/injector.rs:756-784 | A move is injected if and only if no suspension is on, the user is not at the pointer, it goes elsewhere or with other buttons than the last, and the system takes it; and what the next one is compared with. |
| InjectorRuns.FirstMoveAfterSwitch | input/src/injector.rs:618-624 | After a switch of monitors the first move inside goes exactly where the peer points. |
| InjectorRuns.FirstMoveAfterResize | input/src/injector.rs:607-611 | After a change of the target it is scaled from the source to the new target. |
| InjectorRuns.KeysAreTyped | input/src/injector.rs:517-530 | A mapped key event reaches the system once, as it is; the numpad star as Shift and 8, each within the other. |
| InjectorRuns.StarReports | input/src/injector.rs:665-686 | Both halves of a star run; the first error is reported. |
| InjectorRuns.RefusedIff | input/src/injector.rs:689-734 | One event is refused if and only if it is malformed or lacks a resolution that it needs. |
| InjectorRuns.FailedReleaseIsBooked | input/src/injector.rs:909-933 | A release that the system does not take leaves it as it was and empties the books. |
| InjectorRuns.NoIdleMoves | input/src/injector.rs:886-892 | Over every run two injected moves in a row differ in place or buttons unless a suspension or reset lies between. |
| InputInjector.Injector.HandleEvent | input/src/injector.rs:665-686 | The object does the specified step; both halves of an expanded key run, the first error is reported. |
| InputInjector.Injector.HandleOneEvent | input/src/injector.rs:689-785 | Pipeline of one event, all early exits and error results included. |
| InputInjector.Injector.SetDstResolution | input/src/injector.rs:607-611 | New target size; the move guard starts afresh, modifiers and buttons stay. |
| InputInjector.Injector.SetBothResolutions | input/src/injector.rs:618-624 | New source and target size; likewise. |
| InputInjector.Injector.Guard | input/src/injector.rs:856-892 | Verdict and new guard state, in the order of the code. |
| InputInjector.Injector.ModifierSync | input/src/injector.rs:796-827 | Lifts, then presses; both enter the books. |
| InputInjector.Injector.ReleaseEverything | input/src/injector.rs:909-933 | Buttons one by one, then four modifiers, then those pressed for flags. |
| DdnsRuns.WritesAreGuarded | dns/src/ddns.rs:472-571 | In every run and for both families the provider is called for an address if and only if a provider exists and the resolver answered nothing, the new address, or this engine's last successful write before it. |
| DdnsRuns.OthersRecordsAreKept | dns/src/ddns.rs:614-648 | If the answer holds neither the new address nor this engine's own last write, nothing is written. |
| DdnsRuns.ReverseCheckIff | dns/src/ddns.rs:614-648 | The code's filtering and searching is that condition. |
| DdnsRuns.BeliefsAreRight | dns/src/ddns.rs:482-494 | `last_written` is the last successful write, and `published` is true if and only if the last provider call succeeded. |
| DdnsRuns.AddressIsWrittenIff | dns/src/ddns.rs:472-516 | A new address is written if and only if there is a provider, the guard allows it and the call works; it is remembered in any case. |
| DdnsRuns.ReportIff | dns/src/ddns.rs:595-602 | A round reports success if and only if the ids are valid and nothing failed, or something went out and no manual address is missing. |
| DdnsRuns.ShownIff | dns/src/ddns.rs:410-470 | After any run SRV and TXT are shown as published if and only if the last round published them. |
| DdnsRuns.AddressesAlternate | dns/src/ddns.rs:474-516 | No address is looked at twice in a row. |
| DdnsRuns.RepeatIsPossibleIff | dns/src/ddns.rs:474-516 | After any run, for either family published at the address found, two successive provider calls can carry the same address if and only if the address last looked at is not the one last written or refused, that is, was skipped. |
| DdnsRuns.SameAddressCanBeWrittenTwice | dns/src/ddns.rs:474-516 | The run in which address 1 is written, 2 meets a conflict and 1 is written again. |
| DdnsRuns.SameAddressIsLeftAlone | dns/src/ddns.rs:472-571 | For both families and modes: while the address stays the same, or is missing, nothing is tried again, whatever became of the last try. |
| DdnsRuns.FailureIsForgottenIff | dns/src/ddns.rs:472-589 | A round that meets the A address of the round before is clean, and clears the count, if and only if the address was fetched and SRV, TXT and AAAA are well: a failed write of that address does not matter. |
| DdnsRuns.PauseNeedsThreeNewAddresses | dns/src/ddns.rs:364-589 | With only A kept and every fetch working, in every run automatic rounds are on hold if and only if each of the last three rounds saw a new address and failed to write it, and the half hour since has not passed. |
| DdnsRuns.StuckAddressNeverPauses | dns/src/ddns.rs:472-589 | So one address that is never written never causes a pause: the count stays at most one. |
| DdnsRuns.PreviewGoesStaleIff | dns/src/ddns.rs:495-516 | A published line moved to a new address goes on showing as published with another record written if and only if the reverse check stops the write. |
| DdnsRuns.FailuresAreTheStreak | dns/src/ddns.rs:573-589 | `failures` is the number of failing rounds since the last clean round or manual update, in every run. |
| DdnsRuns.PausedIff | dns/src/ddns.rs:364-375 | At any moment automatic rounds are on hold if and only if the ids are valid, the last three or more rounds failed, and half an hour since has not passed. |
| DdnsRuns.FailingRoundsAreSpaced | dns/src/ddns.rs:364-375 | From the third failure on, the next round without a manual update starts at least 30 minutes later. |
| DdnsRuns.RoundsHappenIff | dns/src/ddns.rs:684-691 | A tick does nothing while paused and one round otherwise; a manual update always does one, with failures and pause forgiven. |
| DdnsRuns.FailureReportIsHonest | dns/src/ddns.rs:595-602 | A round that reports failure, manual addresses given, wrote nothing at all and counts as failing. |
| DdnsRuns.MissingAddressFailsEveryRound | dns/src/ddns.rs:517-521 | Manual mode without an address never looks at one and fails every round. |
| DdnsEngine.Engine.Publish | dns/src/ddns.rs:381-603 | One round on the object is the specified step with the specified report. |
| DdnsEngine.AddressRecord.Publish | dns/src/ddns.rs:472-521 | The block for one address family, all branches. |
| DdnsEngine.Engine.TickNow | dns/src/ddns.rs:369-375 | Skips while paused, otherwise publishes. |
| DdnsEngine.Engine.UpdateOnRequest | dns/src/ddns.rs:684-691 | Forgives, publishes, reports. |
| DdnsEngine.Engine.Conclude | dns/src/ddns.rs:573-589 | Failure count, pause and last error after a round. |
| SessionRuns.EpisodeIsYoung | media/src/session.rs:1505-1546 | In every run a degrade episode still on is younger than its deadline and one poll. |
| SessionRuns.EpisodeEndsBy | media/src/session.rs:1505-1546 | A pass leaves an episode only by taking one transport, before that limit, or by ending the session; none starts a second dial. |
| SessionRuns.RunKeepsInv | media/src/session.rs:1486-1693 | In every run the mode is the slot's, the slot the last delivered transport that could be taken, the switch counter their number, and dials and episodes are equally many. |
| SessionRuns.SwitchesOnce | media/src/session.rs:1486-1693 | Without a punch source: at most one switch, from QUIC to TCP; outside an episode no dial is under way and no transport waits, so the spontaneous swap branch never runs; a TCP session never degrades. |
| SessionRuns.SecondEpisodeNeedsADud | media/src/session.rs:1822-1828 | A second episode needs a dialed transport that could not be split and was dropped. |
| SessionRuns.CountersNeverFall | media/src/session.rs:1635-1667 | Switches, decoded and dropped frames never fall. |
| SessionRuns.CountersAreExact | media/src/session.rs:1635-1667 | In every run the counters are the pictures that frames have given and the frames that could not be decoded. |
| SessionRuns.PassEndsIff | media/src/session.rs:1486-1693 | What ends a session in one pass: stop, a degrade past its deadline, an error that no degrade can mend, and of the idle timer only that. |
| SessionRuns.ErrorEndsIff | media/src/session.rs:1670-1689 | A session that listens ends by an error if and only if it is an unknown one, or a lost connection over TCP or without degrade; over QUIC with degrade a lost connection starts an episode instead. |
| SessionRuns.TakenInOrder | media/src/session.rs:1517-1545 | In every run the transports that came in are taken in the order in which they came. |
| SessionRuns.WaitingTransportIsTaken | media/src/session.rs:1589-1615 | One that comes while the session listens is taken at once, or dropped when it does not split. |
| SessionRuns.TimerEndsIff | media/src/session.rs:1561-1587 | Over any run over one transport the timer ends the session if and only if the last packet is ten seconds old by then. |
| SessionRuns.BaselineMissesTheLastPass | media/src/session.rs:1559-1562 | What a swap falls back on was known before the last pass that listened: nothing heard during that pass is in it, whatever ended it. |
| SessionRuns.SilentPeerEndsOnTime | media/src/session.rs:1561-1587 | A client that hears nothing ends exactly 10 s after the last packet, and the timer does end it. |
| SessionRuns.SwapIsFatalIff | media/src/session.rs:1561-1587 | After a swap, with nothing received yet on the new transport, the session ends on the spot if and only if the baseline from before the episode is 10 s old. |
| SessionRuns.SlowDialIsFatalIff | media/src/session.rs:1512-1587 | A dial that succeeds within its deadline is answered by giving up, before the new transport can say anything, if and only if it and the quiet time before it make 10 s. |
| SessionRuns.SwapCanBeFatal | media/src/session.rs:1512-1587 | Six quiet seconds and a dial of four are enough. |
| SessionRuns.PollsOnlyWait | media/src/session.rs:1541-1545 | Waiting passes change nothing but the time, 100 ms each. |
| SessionLoop.ClientSession.OnePass | media/src/session.rs:1486-1693 | One pass of the loop on the variables is the specified step. |
| SessionLoop.ClientSession.TriggerDegrade | media/src/session.rs:1859-1902 | Marks the episode, sets the deadline and dials once, unless one is on. |
| SessionLoop.ClientSession.SwapIn | media/src/session.rs:1811-1836 | Takes the new transport, or drops it and keeps the old. |
| Liveness.QuietTimeIsBounded | media/src/session.rs:1019-1042 | In every run the server has been quiet for at most 3 s, half a second more for each failed output, and the time its sends blocked; half a second less while the session is open. |
| Liveness.PassClosesIff | media/src/session.rs:1028-1040 | A pass closes the session if and only if it is a poll whose keepalive is due, 3 s after the one before, and fails. |
| Liveness.GapIsPossibleIff | media/src/session.rs:1019-1042 | Neighbouring sends with n failed outputs and B ms of blocking between them can be T apart in some run if and only if T is at least B and at most 3 s, n half seconds and B. |
| Liveness.LiveSessionSurvives | media/src/session.rs:1309-1319 | Over either transport: if what the client hears is sent at most G apart and delays vary by at most 10 s less G, its watchdog has, from the first packet on, expired at no moment of the session. |
| Liveness.TcpIsSafeIff | media/src/transport/tcp_fallback.rs:167-210 | Over TCP, with at most n failures and B ms of blocking between sends, no live session is ever given up if and only if the delays vary by at most 10 s less 3 s, n half seconds and B; beyond it there is a run in which one is. |
| Liveness.BusyTcpSurvives | media/src/transport/tcp_fallback.rs:167-210 | With neither, delays may vary by 7 s. |
| Liveness.QuicIsSafeIff | media/src/transport/transport.rs:281-306 | Over QUIC only media is heard: with media at most G apart no live session is ever given up if and only if the delays vary by at most 10 s less G; beyond it there is a run in which one is. |
| Liveness.StillPictureIsLost | media/src/transport/transport.rs:281-306 | A QUIC client that gets no media gives up ten seconds after the start, whatever control packets go out and however they travel. |
| Liveness.StaticScreen | media/src/session.rs:1019-1042 | Twelve seconds of a static screen without audio: four keepalives go out on time, a TCP client is content throughout and a QUIC client has given up at ten. |
| Liveness.FailuresStarve | media/src/session.rs:916-926 | Audio batches that fail at most half a second apart keep the server quiet for any length of time. |
| Liveness.LiveSessionCanBeLost | media/src/session.rs:916-926 | With 20 ms batches that all fail, a client of either kind gives up a session whose server is alive. |

## Left out

- Lossy UTF-8 conversion of labels and TXT text, and the text form of IP addresses: bytes are kept as they are.
- Name lengths above 255 bytes in received messages: the code does not check them either.
- ResolverSpec.TrimLeft: only ASCII white space is trimmed, not the other Unicode white space.
- The DoH JSON path, TLS, endpoint string filtering and concurrent calls of one resolver: library behaviour or single conditions.
- Rle.Decode: leaves open what happens once the code writes outside the buffer (`overran`); `SumAlwaysFitsIff` says that this needs a capacity above 2^32 - 256. Source and destination buffers are taken to be distinct.
- Which pixels the hash shader samples, D3D objects, the constant buffer, initialisation and its reference count, and what GPU calls on missing buffers do.
- That the first frame of a resolution is always fully dirty: it depends on particular CRC values against zeros.
- The activity measurement behind the frequency gate: its verdict is an input.
- Encoder reconfiguration, bit rate, presets and wall-clock encode times.
- Platform injection, key tables, special key sequences beyond the modifiers they press and lift, and non-Windows injection.
- The compensation for Caps Lock in `input/src/injector.rs:481`: one bit is set; the comment at 462-465 describes something else.
- InjectorRuns.ModsAgreeAlways: counts the Shift of a numpad star as pressed by a key event; what the peer itself holds is the subject of `PeerStaysDownAlways`. It needs combinations to come when their modifiers are up; `ComboKeepsModsIff` shows that each one that does not breaks it.
- InjectorRuns.ReleaseLeavesNothingDown: is for events of one button; `SeveralButtonsStickIff` says when several are safe.
- Releases and synchronisations of which the system takes only some keys: each call works or fails as a whole.
- 32-bit overflow of the DDNS failure counter and of frame counters.
- Overlapping DDNS rounds: the worker runs them one after the other.
- DDNS record managers, status channel and time stamps.
- Server-side degrade and the server's fallback accept loop: the same idea as the client's without the dial.
- Liveness.LiveSessionSurvives: says nothing about moments later than the server's last known time plus the delay bound, nor about degrade on the server.
- Feedback, audio pipeline, decoding and statistics of the session beyond the counters.
- The hook's statistics counters, drain on shutdown and the reinstall call itself.
