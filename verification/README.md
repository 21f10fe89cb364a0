# Verified models of the device tree's algorithms

A Dafny 4.11 model of the parts of this Android device tree that carry real
algorithms, with proofs of what they are for. `dafny verify dfyconfig.toml`
checks the whole project.

| part | pure specification and theorems | the code's own form |
|---|---|---|
| modified UTF-8 / UTF-16 (`libshims/libcutils`) | `ModifiedUtf8.dfy` | `StrDup8to16.dfy`, `StrDup16to8.dfy`: loops over C strings and arrays |
| audio routing (`audio_hw.c`) | `AudioRouting.dfy`: operations and runs | `AudioHw.dfy`: usecase objects in a list, counts in an array |
| capture buffering (`audio_hw.c`) | `CaptureFlow.dfy`: frames as sequences | `Capture.dfy`: the stream with its period and processing buffers |
| compress offload (`compress_offload.c`, `audio_hw.c`) | `Offload.dfy`: calls and runs; `OffloadRouting.dfy`: the same on the routes of the audio device; `OffloadThread.dfy`: clients and thread as interleaved steps | `Offload.dfy`, class `OffloadStream` |
| device tree block (`dtbhtool`) | `Dtbh.dfy`: layout; `DtbhSort.dfy`: order; `DtbhFiles.dfy`: names of the unpacked files | `DtbhSort.dfy`, `DtbhTool.dfy`: sort in place, packer, unpacker |
| boot image (`dtbhtool`) | `BootImage.dfy`: header, addresses, image | `BootImage.dfy`, `BootUnpack.dfy`: packer, scan, unpacker |
| camera metadata (`CameraMetadata.cpp`) | `MetadataStore.dfy`: entries as a map, runs | `CameraMetadata.dfy`: the object and the buffer it replaces |

`Bits.dfy` gives masks and shifts their arithmetic meaning, `ByteImage.dfy` holds
little-endian fields, pages, zeroed buffers and files. Each method is proved
equal to a function of the specification; the theorems are about those
functions, for all inputs, runs or interleavings. What the driver, the
allocator, the effects or the device tables answer is a parameter.

## Where the code does not do what it is for

Each of these is a theorem with the exact condition, or an example with its
proof.

- The decoder gives U+FFFD for U+10FFFE and U+10FFFF, so it agrees with RFC 3629
  and RFC 2781 exactly up to 0x10FFFD (`ModifiedUtf8.Utf8ToUtf16`).
- The copy by length does not end on a range that holds a NUL
  (`ModifiedUtf8.RangeCopyTerminates`).
- Rerouting an offload stream from the combo device to the headphones leaves the
  other streams on the combo device (`AudioRouting.OffloadRerouteAgrees`,
  `AudioRouting.LeftOnComboIsReached`).
- A capture call that fails loses the frames it had copied or that were buffered
  (`CaptureFlow.NothingLostExactlyWhen`, `CaptureFlow.NoProcessLosesExactlyWhen`).
- A write in the state of a flushed pause, whose path cannot be enabled, returns
  with the stream locked (`Offload.LockIsKeptExactlyWhen`); a write to a paused stream, and a
  resume whose path cannot be enabled, play without a usecase in the list
  (`Offload.StepKeepsExactlyWhen`, `Offload.FailuresAreReached`); without the effects library's stop hook the
  usecase is entered twice (`Offload.ListedTwiceWithoutHook`).
- A flush gives the stream lock up while it waits for the offload thread, and then
  sets the state whatever has become of the stream. If a resume, a write or a
  standby has come in between, the next write enters the usecase twice
  (`Offload.OvertakenExactlyWhen`, `Offload.ResumeOvertakesFlush`,
  `Offload.StandbyOvertakesFlush`).
- A write that starts the offload stream while a microphone capture is active
  returns with the lock on the input streams; the next start of the stream does
  not return (`Offload.InputsLockIsKeptExactlyWhen`, `Offload.InputsLockStops`).
- Standby keeps the device lock while it waits for the offload thread without the
  stream lock; whoever takes the stream lock meanwhile and needs the device lock
  blocks everyone for good (`OffloadThread.StuckExactlyWhen`,
  `OffloadThread.StuckIsReached`). The thread's one signal can also wake a flush
  and leave standby asleep (`OffloadThread.CoveredExactlyWhen`,
  `OffloadThread.StandbySleepsOn`).
- At the default page size a device tree block with more than ten trees records
  a wrong offset for every one of them (`Dtbh.OffsetRightExactlyWhen`,
  `Dtbh.DefaultPageLimit`), and
  its comparator is no order for numbers 2^31 or more apart
  (`DtbhSort.OrderedExactlyWhen`, `DtbhSort.CmpCycles`). The unpacker overwrites the
  file of a tree by that of a later one with the same chip and revisions
  (`DtbhFiles.AllStayExactlyWhen`).
- A second stage is padded by the ramdisk's size, so the device tree behind it is
  found only if both need the same padding (`BootUnpack.DtFoundExactlyWhen`), and
  load offsets are recovered only with the kernel at the default offset
  (`BootImage.OffsetsRecoveredExactlyWhen`).
- A locked CameraMetadata refuses updates but neither erasing nor appending
  (`MetadataStore.LockedChangesExactlyWhen`), and an append may replace the buffer
  that the lock has handed out (`MetadataStore.AppendChangesLocked`,
  `CameraMetadata.CameraMetadata.AppendBuffer`). An append of a tag that is there
  leaves an entry that a later erase brings to light
  (`MetadataStore.RemoveIsMapRemoveExactlyWhen`, `MetadataStore.EraseUncovers`).
- The header comment of
  `strlen8to16` promises the number of units required; it is an upper bound
  (`ModifiedUtf8.LengthExcess`).

## Model

| member | source | states |
|---|---|---|
| ModifiedUtf8.LengthExcess | libshims/libcutils/strdup8to16.cpp:69-178 | for every byte string, well formed or not, the length pass exceeds the units written by the copy pass by exactly the number of four-byte leaders that are cut short or whose code is outside 0x10000..0x10FFFD, so the buffer sized with it is never too small |
| ModifiedUtf8.LengthBound | libshims/libcutils/strdup8to16.cpp:69-100 | the length pass counts at most two units for a byte, whatever it expects at the start |
| ModifiedUtf8.DecodeConcat | libshims/libcutils/strdup8to16.cpp:113-178 | decoding distributes over concatenation when the second part does not start with an extension byte |
| ModifiedUtf8.RangeIsPrefix | libshims/libcutils/strdup8to16.cpp:186-215 | copying a range by length equals copying the range as a string of its own, unless the byte behind it is an extension byte |
| ModifiedUtf8.RangeOfConcat | libshims/libcutils/strdup8to16.cpp:186-215 | the same for a range that is the first of two parts |
| ModifiedUtf8.RangeCopyTerminates | libshims/libcutils/strdup8to16.cpp:186-215 | the copy by length ends exactly when the range holds no NUL, at which the decoder would stay |
| ModifiedUtf8.RangeIsWholeCharacters | libshims/libcutils/strdup8to16.cpp:186-215 | the copy by length takes exactly the characters that start within the range, the last one whole, and what it leaves is the decoding of what follows |
| ModifiedUtf8.PlainByteDecodes | libshims/libcutils/strdup8to16.cpp:113-144 | a byte below 0x80 stands for itself, whatever follows |
| ModifiedUtf8.StrayByteDecodes | libshims/libcutils/strdup8to16.cpp:122-126 | an extension byte without a leader becomes 0xFFFD, and the decoder goes on behind it |
| ModifiedUtf8.CutShortDecodes | libshims/libcutils/strdup8to16.cpp:127-144 | a leader that is cut short after any number of its extension bytes becomes one 0xFFFD, and the decoder goes on at the byte that cut it short |
| ModifiedUtf8.TwoBytesDecode | libshims/libcutils/strdup8to16.cpp:116-144 | two bytes give the unit of their eleven payload bits, also where one byte would have done |
| ModifiedUtf8.ThreeBytesDecode | libshims/libcutils/strdup8to16.cpp:116-144 | three bytes give the unit of their sixteen payload bits |
| ModifiedUtf8.FourBytesDecode | libshims/libcutils/strdup8to16.cpp:113-178 | four bytes give the surrogate pair of their code, a single unit below 0x10000, and 0xFFFD above 0x10FFFD |
| ModifiedUtf8.Utf8ToUtf16 | libshims/libcutils/strdup8to16.cpp:113-178 | for Unicode scalar values other than zero, decoding the UTF-8 form (section 3 of RFC 3629) gives the UTF-16 form (section 2.1 of RFC 2781) exactly when none is above 0x10FFFD |
| ModifiedUtf8.Utf8Decoded | libshims/libcutils/strdup8to16.cpp:113-178 | and where some are above it, one unit is missing for each of them |
| ModifiedUtf8.RoundTrip | libshims/libcutils/strdup16to8.cpp:109-140 | for all 16-bit units, zeros and unpaired surrogates included, the encoder emits no zero byte and decoding its output gives the units back |
| ModifiedUtf8.LengthsOfEncoding | libshims/libcutils/strdup8to16.cpp:69-100 | on encoded text both length passes are exact |
| ModifiedUtf8.ThereAndBack | libshims/libcutils/strdup16to8.cpp:109-140 | the NUL-terminated string the encoder writes is read back as the same units, into a buffer of exactly their number |
| ModifiedUtf8.EncodeCanonical | libshims/libcutils/strdup16to8.cpp:109-140 | the encoder writes canonical modified UTF-8 (section 4.4.7 of The Java Virtual Machine Specification) |
| ModifiedUtf8.ReencodesIffCanonical | libshims/libcutils/strdup16to8.cpp:109-140 | encoding a decoded byte string gives the original bytes exactly when they are canonical modified UTF-8 |
| StrDup8to16.SeqLengthIsTable | libshims/libcutils/strdup8to16.cpp:30-31 | the shifted constant looks up the length of the sequence a byte starts: 1, 2, 3 or 4 |
| StrDup8to16.ExtensionTest | libshims/libcutils/strdup8to16.cpp:79-79 | the mask test finds exactly the bytes 0x80..0xBF |
| StrDup8to16.LeaderMaskKeeps | libshims/libcutils/strdup8to16.cpp:120-131 | the leader mask keeps the payload bits of each kind of leader |
| StrDup8to16.ShiftAndMask | libshims/libcutils/strdup8to16.cpp:34-35 | the macro appends six payload bits |
| StrDup8to16.IsExtensionByte | libshims/libcutils/strdup8to16.cpp:122-123 | the test on a byte, equal to its specification |
| StrDup8to16.Utf8SeqLength | libshims/libcutils/strdup8to16.cpp:30-31 | the macro on any byte, equal to the table of sequence lengths |
| StrDup8to16.MaskLeader | libshims/libcutils/strdup8to16.cpp:120-131 | the payload bits of a leader of the given length |
| StrDup8to16.Utf8ShiftAndMask | libshims/libcutils/strdup8to16.cpp:34-35 | a code with six more bits |
| StrDup8to16.SurrogatePair | libshims/libcutils/strdup8to16.cpp:165-169 | the two units of a code above 0xFFFF are its surrogate pair |
| StrDup8to16.GetUtf32FromUtf8 | libshims/libcutils/strdup8to16.cpp:113-144 | takes the next code of the string and advances past exactly its bytes; a NUL is returned and not passed |
| StrDup8to16.StrLen8to16 | libshims/libcutils/strdup8to16.cpp:69-100 | counts the units modulo SIZE_MAX + 1, never reading past the terminator |
| StrDup8to16.WriteUnits | libshims/libcutils/strdup8to16.cpp:162-172 | writes one or two units for a code and changes nothing else in the destination |
| StrDup8to16.CopyCharacter | libshims/libcutils/strdup8to16.cpp:157-173 | one turn of a copy loop: what it writes followed by what is left to decode is what was to be decoded |
| StrDup8to16.StrCpy8to16 | libshims/libcutils/strdup8to16.cpp:152-178 | writes the decoded units to the front of the destination, reports their number, and leaves the rest of it alone |
| StrDup8to16.StrCpyLen8to16 | libshims/libcutils/strdup8to16.cpp:186-215 | the same for the characters that start within the first bytes |
| StrDup8to16.StrDup8to16 | libshims/libcutils/strdup8to16.cpp:44-61 | NULL exactly for NULL or an overflowing size; otherwise a buffer of the counted size that holds the decoded units, shorter than it by the bad four-byte leaders |
| StrDup16to8.StrNLen16to8 | libshims/libcutils/strdup16to8.cpp:29-94 | for every SIZE_MAX of at least 4, both paths return the encoded length, but never more than SIZE_MAX - 1 |
| StrDup16to8.UnitBytes | libshims/libcutils/strdup16to8.cpp:62-67 | the size of the encoding of one unit |
| StrDup16to8.ContinuationByte | libshims/libcutils/strdup16to8.cpp:123-124 | masks and shifts give the base-64 digits of a unit |
| StrDup16to8.LeaderByteOfThree | libshims/libcutils/strdup16to8.cpp:122-122 | shift and mask give the leader of a three-byte form |
| StrDup16to8.LeaderByteOfTwo | libshims/libcutils/strdup16to8.cpp:126-126 | shift and mask give the leader of a two-byte form |
| StrDup16to8.WriteUnit | libshims/libcutils/strdup16to8.cpp:119-134 | writes the encoding of one unit and changes nothing else |
| StrDup16to8.CopyUnits | libshims/libcutils/strdup16to8.cpp:117-135 | writes the encoding of all units, as many bytes as the length pass counts |
| StrDup16to8.StrNCpy16to8 | libshims/libcutils/strdup16to8.cpp:109-140 | writes the encoding and its terminator, and nothing behind it |
| StrDup16to8.StrNDup16to8 | libshims/libcutils/strdup16to8.cpp:146-168 | NULL exactly for NULL, a saturated length or no memory; otherwise exactly the bytes of the encoding and the terminator |
| Bits.AndNotLowMask | tools/dtbhtool/dtbimg.c:227-227 | in 32 bits, masking with the complement of 2^k - 1 rounds down to a multiple of 2^k |
| AudioRouting.StepKeeps | hardware/audio/audio_hw.c:1978-2155 | every start, stop, reroute, call start, stop and restart keeps: each reference count is the number of live routes that expand to its device, ids are unique, one input device, call flag exactly when the call is in the list; and one output device, except in the one case named below |
| AudioRouting.RunCounted | hardware/audio/audio_hw.c:835-1115 | the counts agree with the live routes in every state of every run, through failed opens, nested selection and call restarts |
| AudioRouting.RunAgrees | hardware/audio/audio_hw.c:941-1115 | any two live playback or call usecases with an output device have the same one, and likewise for input, in every state of a run that leaves nobody behind on the combo device |
| AudioRouting.AllOffAtEnd | hardware/audio/audio_hw.c:891-939 | when the last usecase is gone all counts are 0 and no call is on |
| AudioRouting.StepIds | hardware/audio/audio_hw.c:1978-2155 | every event leaves exactly the right usecases live, in order: a stream is added only when it opens, a call only when there is memory; stopping takes away that one |
| AudioRouting.StartIds | hardware/audio/audio_hw.c:2372-2373 | a start that cannot open its device, or has no memory or profile, leaves the ids as they were |
| AudioRouting.RunIds | hardware/audio/audio_hw.c:1978-2155 | in every state of every run the live usecases are those that the events so far have left live |
| AudioRouting.SelectedRoute | hardware/audio/audio_hw.c:1002-1112 | a call goes to both devices chosen for it, a stream to the call's device of its direction if a call has one, and otherwise to the one chosen, and to no device of the other direction |
| AudioRouting.FollowingRoutes | hardware/audio/audio_hw.c:835-939 | the other usecases: when the selected one changes its route, those of its type follow to its device; nothing else moves |
| AudioRouting.NestedRoutes | hardware/audio/audio_hw.c:1048-1058 | with an active capture selected first, the capture usecases end up as that selection leaves them, the playback usecases as ever |
| AudioRouting.EnteredRoute | hardware/audio/audio_hw.c:2289-2311 | a stream or call that starts is at the end of the list, on the devices that a selection gives it |
| AudioRouting.ReroutedRoute | hardware/audio/audio_hw.c:2678-2681 | so is a stream that is rerouted, the offload stream after its parameters included |
| AudioRouting.OffloadRerouteAgrees | hardware/audio/compress_offload.c:241-257 | rerouting an offload stream keeps one output device exactly when it does not leave the combo device for the headphones while others stay on it |
| AudioRouting.OffloadRerouteKeeps | hardware/audio/audio_hw.c:2678-2681 | it keeps the counts, the usecases and the call flag in any case |
| AudioRouting.LeftOnComboIsReached | hardware/audio/compress_offload.c:241-257 | a run of two starts on the combo device and a rerouting to the headphones ends with two playback streams on different devices |
| AudioRouting.SelectKeeps | hardware/audio/audio_hw.c:1002-1115 | selecting devices keeps counts, one device for each direction and the list of usecases, also when it selects for the active input first; for a capture usecase no playback or call route changes |
| AudioRouting.ApplyKeeps | hardware/audio/audio_hw.c:1072-1115 | putting a usecase on devices keeps all of this whatever the devices, if they do not contradict a running call |
| AudioRouting.ApplyRoutes | hardware/audio/audio_hw.c:1091-1108 | the usecase ends up on the new devices and every other one of the same direction follows it |
| AudioRouting.SwitchCounted | hardware/audio/audio_hw.c:941-1000 | moving the other usecases one by one keeps the counts at each step |
| AudioRouting.MoveCounted | hardware/audio/audio_hw.c:990-997 | moving one usecase from its device to another keeps the counts, for the combo device too |
| AudioRouting.EnableAdds | hardware/audio/audio_hw.c:835-889 | enabling adds one reference to each device that the given one expands to |
| AudioRouting.DisableSubtracts | hardware/audio/audio_hw.c:891-939 | disabling what is held takes one reference from each and never meets the guard against negative counts |
| AudioRouting.ReleaseCounted | hardware/audio/audio_hw.c:1082-1089 | releasing a device that is written as NONE afterwards keeps the counts |
| AudioRouting.EnterKeeps | hardware/audio/audio_hw.c:2289-2311 | entering a usecase and routing it keeps the invariants and adds exactly its id to the list |
| AudioRouting.StopStreamKeeps | hardware/audio/audio_hw.c:2270-2287 | stopping a stream keeps the invariants and takes exactly its id off the list |
| AudioRouting.StopVoiceCallKeeps | hardware/audio/audio_hw.c:2378-2402 | stopping a call keeps the invariants, and its usecase is gone |
| AudioRouting.TrimCounted | hardware/audio/compress_offload.c:241-257 | giving up the speaker of the combo device keeps the counts |
| AudioHw.AudioDevice.constructor | hardware/audio/audio_hw.c:4257-4257 | all counts 0, no usecases, no call |
| AudioHw.AudioDevice.EnableSndDevice | hardware/audio/audio_hw.c:835-889 | the counts after enabling a device, two of them for the combo device |
| AudioHw.AudioDevice.DisableSndDevice | hardware/audio/audio_hw.c:891-939 | the counts after disabling a device, and -EINVAL when it was not in use |
| AudioHw.AudioDevice.GetUsecaseFromId | hardware/audio/audio_hw.c:537-549 | the first usecase of an id, or null |
| AudioHw.AudioDevice.GetFirstInput | hardware/audio/audio_hw.c:551-563 | the first usecase of type capture or call, or null |
| AudioHw.AudioDevice.MarkUsecases | hardware/audio/audio_hw.c:968-984 | marks exactly the other usecases of the type that are on another device |
| AudioHw.AudioDevice.MoveMarkedUsecases | hardware/audio/audio_hw.c:986-998 | moves exactly the marked ones; counts and routes after the pass |
| AudioHw.AudioDevice.MoveUsecase | hardware/audio/audio_hw.c:991-996 | one usecase off its device and onto another |
| AudioHw.AudioDevice.CheckAndRouteUsecases | hardware/audio/audio_hw.c:941-1000 | both passes together: the counts and routes that the specification gives, the skipped second pass included |
| AudioHw.AudioDevice.RouteTo | hardware/audio/audio_hw.c:1092-1105 | moves the others and enables the device, or nothing for NONE |
| AudioHw.AudioDevice.ReleaseDevices | hardware/audio/audio_hw.c:1082-1089 | the counts after the current devices are released |
| AudioHw.AudioDevice.ChangeDevices | hardware/audio/audio_hw.c:1082-1108 | releases, moves the others, enables and records |
| AudioHw.AudioDevice.ApplyDevices | hardware/audio/audio_hw.c:1072-1108 | nothing when the devices are the current ones, otherwise the change |
| AudioHw.AudioDevice.SelectDevices | hardware/audio/audio_hw.c:1002-1115 | the whole selection with inheritance from a call and the nested selection, equal to the specification, and its status |
| AudioHw.AudioDevice.OutSetOffloadParameters | hardware/audio/compress_offload.c:241-257 | gives up the speaker of an offload usecase on the combo device, or reports that there is none |
| AudioHw.AudioDevice.RerouteOffload | hardware/audio/audio_hw.c:2678-2681 | the offload parameters followed by the selection |
| AudioHw.AudioDevice.EnterUsecase | hardware/audio/audio_hw.c:2289-2311 | one new usecase at the end of the list, routed |
| AudioHw.AudioDevice.RemoveUsecase | hardware/audio/audio_hw.c:2283-2284 | the usecase leaves the list, the others keep their order |
| AudioHw.AudioDevice.StopStreamUsecase | hardware/audio/audio_hw.c:1978-2009 | stops a capture or playback usecase, or reports that it is not in the list |
| AudioHw.AudioDevice.StartStreamUsecase | hardware/audio/audio_hw.c:2330-2376 | starts a stream, undoing it when the device cannot be opened |
| AudioHw.AudioDevice.StopVoiceCall | hardware/audio/audio_hw.c:2378-2402 | ends the call, its usecase and both its devices |
| AudioHw.AudioDevice.StartVoiceCall | hardware/audio/audio_hw.c:2405-2444 | starts a call, unless there is no memory |
| AudioHw.AudioDevice.RestartVoiceCall | hardware/audio/audio_hw.c:2697-2708 | a restart is a stop and a start of the same call, at a new route or for another band of the modem (hardware/audio/voice.c:404-405) |
| CaptureFlow.ReadConserves | hardware/audio/audio_hw.c:1915-1961 | one read copies, in order, the old unread tail and the periods read meanwhile, and leaves the rest unread; a read that fails returns none of what it has copied |
| CaptureFlow.ReadSucceeds | hardware/audio/audio_hw.c:1915-1961 | a read succeeds exactly when enough frames come before the next driver error, and then returns exactly the number asked for |
| CaptureFlow.ManyReadsConserve | hardware/audio/audio_hw.c:3364-3469 | over any sequence of calls, failing ones included, the frames passed on and the frames lost, in order, followed by the unread tail, are exactly the periods read |
| CaptureFlow.NothingLostExactlyWhen | hardware/audio/audio_hw.c:3364-3469 | the frames passed on, followed by the unread tail, are all the periods read exactly when every call that failed had found no frame before the driver's error |
| CaptureFlow.FailedReadLoses | hardware/audio/audio_hw.c:1955-1956 | a read of two frames that meets an error after one loses that one |
| CaptureFlow.ProcessConserves | hardware/audio/audio_hw.c:1720-1800 | what the effects took, what is left for them, what a failed read had copied behind it and what is left in the period buffer are exactly the frames captured; only a call that fails has copied in vain |
| CaptureFlow.ProcessYields | hardware/audio/audio_hw.c:1720-1800 | a call that is done yields exactly the frames asked for |
| CaptureFlow.ManyProcessesConserve | hardware/audio/audio_hw.c:3364-3469 | over any sequence of calls what the effects took in calls that succeed and what was lost in calls that fail, in order, followed by what is still buffered, is exactly what was captured |
| CaptureFlow.FailedProcessLoses | hardware/audio/audio_hw.c:1744-1748 | a call that fails loses nothing exactly when nothing was buffered and the first thing it met was the error |
| CaptureFlow.NoProcessLosesExactlyWhen | hardware/audio/audio_hw.c:3364-3469 | what the effects took in calls that succeed, followed by what is buffered, is all that was captured exactly when every failing call was of that kind |
| CaptureFlow.ReadFailsWith | hardware/audio/audio_hw.c:1871-1890 | a read goes on over the periods that pcm_read answers and fails with the code of the first error |
| CaptureFlow.ProcessFailsWith | hardware/audio/audio_hw.c:1740-1749 | so does a call with effects |
| CaptureFlow.ProcessGives | hardware/audio/audio_hw.c:1756-1799 | the effects are called once in each turn, and the call yields what they have produced, in order, up to the frames asked for |
| CaptureFlow.ProcessTakes | hardware/audio/audio_hw.c:1756-1783 | effects that ask for no more frames than the call has are given exactly those |
| CaptureFlow.DropChannelsAt | hardware/audio/audio_hw.c:1825-1844 | frame k without its additional channels is its first samples, as many as there are main channels |
| Capture.StreamIn.constructor | hardware/audio/audio_hw.c:2128-2133 | both buffers empty, nothing read yet |
| Capture.StreamIn.Refill | hardware/audio/audio_hw.c:1871-1890 | reads one period into the empty buffer, growing it if needed, or records the error |
| Capture.StreamIn.GetNextBuffer | hardware/audio/audio_hw.c:1849-1897 | offers the unread frames, not more than asked for, without changing what a read of that many would give |
| Capture.StreamIn.ReleaseBuffer | hardware/audio/audio_hw.c:1899-1911 | the frames used are no longer unread |
| Capture.StreamIn.ReadChunk | hardware/audio/audio_hw.c:1930-1958 | one turn of the read loop: what it copied and what is left of the read make up the read |
| Capture.StreamIn.ReadFrames | hardware/audio/audio_hw.c:1915-1961 | status, frames in the destination and what remains unread are those of the specification; the rest of the destination is untouched |
| Capture.StreamIn.GrowProcBufs | hardware/audio/audio_hw.c:1727-1739 | larger processing buffers with the same contents |
| Capture.StreamIn.AppendToProcBuf | hardware/audio/audio_hw.c:1740-1749 | frames read behind those still to be processed, or none when the read fails |
| Capture.StreamIn.ReloadProcBuf | hardware/audio/audio_hw.c:1725-1750 | as many frames to process as are asked for, unless a read fails |
| Capture.StreamIn.RunEffects | hardware/audio/audio_hw.c:1756-1783 | the frames taken leave the front of the buffer, the frames produced are written where they belong |
| Capture.StreamIn.MoveToFront | hardware/audio/audio_hw.c:1777-1783 | the remaining frames, moved to the front |
| Capture.StreamIn.ProcessChunk | hardware/audio/audio_hw.c:1723-1799 | one turn of the processing loop |
| Capture.StreamIn.ProcessLoop | hardware/audio/audio_hw.c:1723-1799 | the loop: progress, output, remaining frames as specified |
| Capture.StreamIn.RemoveChannels | hardware/audio/audio_hw.c:1825-1844 | the first channels of each frame, one channel or several |
| Capture.StreamIn.ReadUnprocessed | hardware/audio/audio_hw.c:1803-1817 | the branch without effects |
| Capture.StreamIn.ReadAndProcessFrames | hardware/audio/audio_hw.c:1686-1847 | the whole call: what it returns, what stays buffered, and in the caller's buffer the first samples of each frame, as many as there are main channels |
| Capture.StreamIn.Start | hardware/audio/audio_hw.c:2129-2134 | both buffers are empty again, whatever they held |
| Capture.StreamIn.Standby | hardware/audio/audio_hw.c:3209-3240 | the device is closed and the period buffer freed |
| Capture.StreamIn.Silence | hardware/audio/audio_hw.c:3461-3461 | the caller's buffer is zeroed |
| Capture.StreamIn.InRead | hardware/audio/audio_hw.c:3364-3469 | starts a stream in standby, reads, and after a failure is in standby with a silent buffer, still reporting all the bytes asked for; with the microphone muted what was read is replaced by silence; otherwise the buffer holds the first samples of each frame that was read or produced |
| Offload.StepKeepsExactlyWhen | hardware/audio/compress_offload.c:224-399 | from any state where list and state agree, a step that can be made, with flush and standby in two steps where they wait for the thread, keeps them in agreement exactly when it is not a write to a paused stream, a write that leaves standby with the state of a flushed pause, a resume whose path cannot be enabled, or a flush that wakes when the stream is active or, with the hook, in standby |
| Offload.OvertakenExactlyWhen | hardware/audio/compress_offload.c:73-82 | a sleeping flush ends where it should exactly as long as no write or resume takes effect and no standby ends while it sleeps |
| Offload.ListedExactlyWhenActive | hardware/audio/compress_offload.c:224-399 | with the effects library's stop hook, after any calls, some of them made while others sleep, of a caller that does not write while paused and overtakes no sleeping flush in that way, the usecase is in the list exactly when the stream is live (out of standby, or with a standby still asleep) and idle or playing, and then once; other entries keep their order |
| Offload.RunKeeps | hardware/audio/audio_hw.c:2289-2376 | the invariant behind it over every run, and the stream lock is always given back |
| Offload.StepRefinesPlayer | hardware/audio/compress_offload.c:259-399 | with the hook, calls that find the thread idle do to the stream, and return, what a player does that is off, or on and playing, paused or flushed, with or without a handle; a pause of an unlisted usecase alone returns the list's error |
| Offload.RunRefinesPlayer | hardware/audio/audio_hw.c:2550-2598 | over any sequence of such calls, failing ones included, the stream is what that player has become |
| Offload.SleepThenWake | hardware/audio/compress_offload.c:73-82 | a flush or standby sleeps exactly for a paused or live stream with a handle while the thread is in a call; with nothing in between, sleeping and waking do what the call does at once |
| Offload.StepKeepsOthers | hardware/audio/audio_hw.c:2270-2311 | no call touches the entries of other usecases |
| Offload.LockIsKeptExactlyWhen | hardware/audio/compress_offload.c:268-276 | with or without the hook, a call returns with the stream lock held exactly when it is a write with the state of a flushed pause whose path cannot be enabled, to a stream out of standby or leaving it in that write; out of standby it changes nothing else, from standby it has entered the usecase |
| Offload.InputsLockIsKeptExactlyWhen | hardware/audio/audio_hw.c:2862-2913 | a call returns with the lock on the input streams held exactly when it is a write that starts the stream while a microphone capture is active |
| Offload.InputsLockStops | hardware/audio/audio_hw.c:2862-2873 | a run of two calls reaches the state in which no write can start the stream again, for want of that lock |
| Offload.FailuresAreReached | hardware/audio/compress_offload.c:259-369 | with the hook and one call at a time, runs of three or four calls reach a write to a paused stream and a resume without a path, which play without an entry, and a write after a flush that keeps the stream lock |
| Offload.ResumeOvertakesFlush | hardware/audio/compress_offload.c:353-399 | with the hook, a resume while a flush sleeps makes the next write enter the usecase twice |
| Offload.StandbyOvertakesFlush | hardware/audio/compress_offload.c:385-399 | so does a standby that begins and ends while a flush sleeps |
| Offload.ListedTwiceWithoutHook | hardware/audio/compress_offload.c:224-239 | without the hook, write, pause, flush, standby and write, one at a time, enter the usecase twice, or keep the stream lock when the second path cannot be enabled |
| Offload.WithoutFirstCounts | hardware/audio/audio_hw.c:537-549 | removing the first entry of an id takes one away, if there is one, and no other entry |
| Offload.UsecaseList.RemoveUsecase | hardware/audio/audio_hw.c:2270-2287 | finds and removes the first entry of an id |
| Offload.OffloadStream.EnableOutputPath | hardware/audio/audio_hw.c:2289-2311 | appends the usecase, unless there is no memory |
| Offload.OffloadStream.DisableOutputPath | hardware/audio/audio_hw.c:2270-2287 | removes it, or reports that it is not there |
| Offload.OffloadStream.StopOutputStream | hardware/audio/audio_hw.c:2313-2328 | with the hook resets the state and disables the path unless paused; without it always disables it and keeps the state |
| Offload.OffloadStream.StartOutputStream | hardware/audio/audio_hw.c:2330-2376 | enables the path and opens the handle; a handle that is not ready undoes it |
| Offload.OffloadStream.WriteData | hardware/audio/compress_offload.c:268-295 | enables the path after a flush, and plays |
| Offload.OffloadStream.OutWrite | hardware/audio/audio_hw.c:2847-2913 | starts a stream in standby, then writes |
| Offload.OffloadStream.OutPause | hardware/audio/compress_offload.c:336-351 | pauses a playing stream and disables its path |
| Offload.OffloadStream.OutResume | hardware/audio/compress_offload.c:353-369 | resumes a paused stream, without looking whether the path could be enabled |
| Offload.OffloadStream.OutFlush | hardware/audio/compress_offload.c:385-399 | refused while playing; a paused stream is flushed at once, or after a sleep while the thread is in a call |
| Offload.OffloadStream.FlushWakesUp | hardware/audio/compress_offload.c:393-395 | the flush that wakes sets the state without looking at it again |
| Offload.OffloadStream.OutStandby | hardware/audio/audio_hw.c:2550-2598 | closes the handle and stops the output once, at once or after a sleep while the thread is in a call |
| Offload.OffloadStream.StandbyWakesUp | hardware/audio/audio_hw.c:2568-2580 | the standby that wakes closes the handle and stops the output, for the state it finds then |
| OffloadThread.CallsAreSafe | hardware/audio/compress_offload.c:127-152 | in every interleaving of any number of clients and the thread, with signals and waits that end by themselves, a blocking call is on the stream's handle, which is open, while `offload_thread_blocked` is set |
| OffloadThread.CloseIsAlone | hardware/audio/audio_hw.c:2568-2575 | in every interleaving, the handle closed in standby is the only open one and the thread neither uses it nor is about to |
| OffloadThread.OpenIsAlone | hardware/audio/audio_hw.c:2355-2362 | in every interleaving, a handle is opened only when none is open |
| OffloadThread.RunKeeps | hardware/audio/compress_offload.c:84-169 | the invariant on locks, flag and handle in every state of every run |
| OffloadThread.TakenInOrder | hardware/audio/compress_offload.c:60-116 | in every interleaving the commands sent are, in order, those the thread has taken followed by those queued, until it takes one to exit, which is the last |
| OffloadThread.ServesInOrder | hardware/audio/compress_offload.c:118-156 | in every interleaving what the thread has done and still has to do for the command in hand is exactly what the commands taken with a handle ask for, in order: the driver calls of each (two for a partial drain) on that handle, and then the notice to the client |
| OffloadThread.StreamIsHistory | hardware/audio/audio_hw.c:2355-2376 | in every interleaving the stream is in standby, and has a handle, exactly as the last open, standby and close have left it |
| OffloadThread.GoesOnToSend | hardware/audio/compress_offload.c:286-288 | a client that finds the stream open, opens it or has its path can go on to send a command, which is queued behind the others |
| OffloadThread.WaitEndsExactlyWhen | hardware/audio/compress_offload.c:73-82 | a flush or a standby with a handle waits, and leaves its wait exactly at a test that finds the flag not set |
| OffloadThread.AsleepAfter | hardware/audio/compress_offload.c:105-165 | a signal wakes one sleeper, if there is one: when the thread comes back, when it takes a command without a handle, and when it ends |
| OffloadThread.ClientStepKeeps | hardware/audio/compress_offload.c:73-82 | kept by every step of a client, though the wait gives the stream lock up |
| OffloadThread.ThreadStepKeeps | hardware/audio/compress_offload.c:84-169 | kept by every step of the thread |
| OffloadThread.BystanderKeeps | hardware/audio/audio_hw.c:2590-2597 | a client that waits with the device lock relies on nothing that others may change without it |
| OffloadThread.StuckExactlyWhen | hardware/audio/compress_offload.c:73-82 | but for waits that end by themselves, nothing can move any more exactly when the thread is not in a call and the holder of the stream lock needs the device lock, which a client in standby keeps while it waits for the stream lock |
| OffloadThread.StuckIsReached | hardware/audio/audio_hw.c:2642-2644 | that state is reached: a change of routing arrives while a client in standby waits for the thread |
| OffloadThread.ClientCanMove | hardware/audio/audio_hw.c:2583-2597 | any other holder of the stream lock can go on |
| OffloadThread.StuckForGood | hardware/audio/compress_offload.c:78-80 | no wait that ends by itself helps then |
| OffloadThread.CoveredExactlyWhen | hardware/audio/compress_offload.c:151-153 | a sleeping client is left without a signal to come exactly when the thread comes back from its call and two clients sleep |
| OffloadThread.QuietMeansDone | hardware/audio/compress_offload.c:73-82 | in a state in which only requests and waits that end by themselves can move anything, while nobody sleeps without a signal to come and the device lock is not kept from the holder of the stream lock, no client waits and the thread sleeps or is gone |
| OffloadThread.RunIsBounded | hardware/audio/compress_offload.c:84-169 | any interleaving of any number of clients has at most 14 steps for each request, 3 for each wait that ends by itself, and 2 more: nothing goes round in circles |
| OffloadThread.EveryWaitEnds | hardware/audio/compress_offload.c:73-82 | what was begun is worked off in a bounded number of steps, in any order, and then every client's call has ended, exactly unless the device lock is kept from the holder of the stream lock; asked only that nobody sleeps without a signal to come and the thread does not come back while two sleep |
| OffloadThread.StandbySleepsOn | hardware/audio/compress_offload.c:151-153 | with a flush and a standby asleep the one signal can wake the flush, and standby sleeps on with the device lock until another request wakes the thread |
| OffloadRouting.StepRefines | hardware/audio/audio_hw.c:2270-2376 | whatever the state, a stream call does to the ids of the routes what the list model says it does to its list |
| OffloadRouting.StopIds | hardware/audio/audio_hw.c:2270-2287 | stopping a stream takes the first route of its id away, and no other |
| OffloadRouting.EnableIds | hardware/audio/audio_hw.c:2289-2311 | enabling the path adds one route at the end |
| OffloadRouting.CountsAndListAgree | hardware/audio/audio_hw.c:835-939 | over runs in which stream calls, also those that wait for the thread, alternate with events of other usecases, calls and reroutings, every reference count is the number of live routes, and the offload stream has a route exactly when it is live and idle or playing; asked of the caller is what `Offload.ListedExactlyWhenActive` asks |
| OffloadRouting.BroughtInRoute | hardware/audio/audio_hw.c:2289-2311 | a call that brings the offload usecase in puts it at the end of the list, on the device that a selection gives it |
| OffloadRouting.PausedHoldsNothing | hardware/audio/compress_offload.c:336-351 | a stream that is paused or in standby, alone on the device, leaves all counts at 0 |
| OffloadRouting.OthersKeepListed | hardware/audio/audio_hw.c:1002-1115 | events of others leave the stream's usecase listed or not as it was |
| Dtbh.StartsAreOrdered | tools/dtbhtool/dtbimg.c:246-299 | the trees are copied to a place behind the entries and at or before the end of the reserved header |
| Dtbh.CopiesFit | tools/dtbhtool/dtbimg.c:279-304 | every tree is copied, padding included, to a page boundary inside the buffer |
| Dtbh.CopiesAreDisjoint | tools/dtbhtool/dtbimg.c:301-304 | no two copies overlap, padding included |
| Dtbh.RoomForMarker | tools/dtbhtool/dtbimg.c:298-299 | with pages of at least 32 bytes the entries never end at a page boundary: at least 20 bytes are left, and the added padding ends at the next one |
| Dtbh.MarkerInImage | tools/dtbhtool/dtbimg.c:256-299 | those bytes are zero in the block, which leaves the end marker its room |
| Dtbh.EntryInImage | tools/dtbhtool/dtbimg.c:285-296 | the block begins with the header and the entries in their order |
| Dtbh.BlobInImage | tools/dtbhtool/dtbimg.c:301-304 | each tree is in the block where it was copied to, zero-padded to a page |
| Dtbh.OffsetRightExactlyWhen | tools/dtbhtool/dtbimg.c:246-275 | an entry, wherever the sort has put it, records the place its own tree is copied to exactly when 16 + 16n(n + 1) and 12 + 32n round up to the same page |
| Dtbh.OffsetsRightOnOnePage | tools/dtbhtool/dtbimg.c:246-257 | while the real header fits one page, that is so exactly when 16 + 16n(n + 1) does |
| Dtbh.DefaultPageLimit | tools/dtbhtool/dtbimg.c:246-257 | with the default page size of 2048 the recorded offsets are right for at most ten trees |
| ByteImage.MaskUpRoundsUp | tools/dtbhtool/dtbimg.c:227-227 | adding the mask and masking rounds up to a page, unless the result needs more than 32 bits |
| ByteImage.Le32RoundTrip | tools/dtbhtool/dtbimg.c:285-287 | a 32-bit field reads back as it was written |
| ByteImage.FieldBytes | tools/dtbhtool/unpackdtbhimg.c:30-45 | a field's low byte comes first |
| DtbhSort.OrderedExactlyWhen | tools/dtbhtool/dtbimg.c:60-68 | the comparator orders two entries by chip and revision exactly when the first numbers in which they differ are less than 2^31 apart (or exactly 2^31, the smaller one first) |
| DtbhSort.CmpCycles | tools/dtbhtool/dtbimg.c:60-68 | chips 0, 0x60000000 and 0xC0000000 compare in a circle |
| DtbhSort.CmpWraps | tools/dtbhtool/dtbimg.c:60-68 | the comparator is the difference of the first numbers that differ, wrapped into a signed 32-bit number |
| DtbhSort.SortIsByComparator | tools/dtbhtool/dtbimg.c:259-259 | whatever the numbers, no entry of the result compares greater than the next |
| DtbhSort.SortPermutes | tools/dtbhtool/dtbimg.c:259-259 | sorting loses and adds nothing, whatever the comparator says |
| DtbhSort.SortSorts | tools/dtbhtool/dtbimg.c:259-259 | the result is in order of chip and revision if every two entries are that close |
| DtbhSort.SortSortsSmall | tools/dtbhtool/dtbimg.c:259-259 | so it is when chips and revisions are below 2^31 |
| DtbhSort.SortEntries | tools/dtbhtool/dtbimg.c:259-259 | sorts the array in place, equal to the specification |
| DtbhTool.ReadTrees | tools/dtbhtool/dtbimg.c:227-247 | one entry for each tree, and both sizes, with 32-bit arithmetic that does not wrap |
| DtbhTool.PlaceTrees | tools/dtbhtool/dtbimg.c:261-266 | the offset of every tree from the end of the reserved header |
| DtbhTool.UpdateEntries | tools/dtbhtool/dtbimg.c:268-275 | offset and size of each entry's own tree |
| DtbhTool.WriteFront | tools/dtbhtool/dtbimg.c:285-296 | magic, version, count and entries at the front of the zeroed buffer |
| DtbhTool.WriteHead | tools/dtbhtool/dtbimg.c:285-299 | the offset behind the padding is where the first tree belongs |
| DtbhTool.WriteTrees | tools/dtbhtool/dtbimg.c:301-304 | the trees behind one another |
| DtbhTool.LoadDtbhBlock | tools/dtbhtool/dtbimg.c:111-309 | the packer: nothing without trees, otherwise exactly the block for the sorted entries |
| DtbhTool.BlockHeader | tools/dtbhtool/dtbimg.c:285-287 | the block begins with DTBH, version 2 and the number of trees |
| DtbhTool.BlockEntry | tools/dtbhtool/dtbimg.c:237-296 | each entry holds, at the struct's offsets, its own tree's chip and revisions, both codes, the recorded offset and size, and the delimiter |
| DtbhTool.BlockTree | tools/dtbhtool/dtbimg.c:298-304 | each tree is in the block as it is, with zeros up to the next one; the first is on the page behind the entries |
| DtbhTool.UnpackGives | tools/dtbhtool/unpackdtbhimg.c:132-160 | on any file: which of the three outcomes, and for each entry in the header page its five numbers and the bytes at its offset, if the file has them |
| DtbhTool.UnpackFile | tools/dtbhtool/unpackdtbhimg.c:132-170 | the unpacker on any file: a header that is missing, entries beyond it, or one dump for each entry |
| DtbhTool.EntryComesBack | tools/dtbhtool/unpackdtbhimg.c:148-170 | an entry whose recorded offset is right unpacks to its numbers and its tree, padded |
| DtbhTool.RoundTrip | tools/dtbhtool/unpackdtbhimg.c:134-170 | unpacking a packed block gives every tree, zero-padded to a page, in the order of the entries, when 16 + 16n(n + 1) is at most the page size |
| DtbhTool.PackedComesBackInOrder | tools/dtbhtool/unpackdtbhimg.c:148-170 | in the order of chip and revision when those are below 2^31, with a dump for every tree |
| DtbhFiles.SameNameExactlyWhen | tools/dtbhtool/unpackdtbhimg.c:163-168 | two dumps have one file name exactly when chip, platform, subtype and both revisions are equal, also where the name is cut at 63 characters |
| DtbhFiles.DigitsReadBack | tools/dtbhtool/unpackdtbhimg.c:165-167 | the digits in a name stand for the number |
| DtbhFiles.StaysExactlyWhen | tools/dtbhtool/unpackdtbhimg.c:163-169 | a dump is in its file at the end exactly when no later one has the same five numbers |
| DtbhFiles.AllStayExactlyWhen | tools/dtbhtool/unpackdtbhimg.c:148-170 | the files of a packed block hold every tree exactly when no two trees have chip and both revisions in common |
| BootImage.OffsetsRecoveredExactlyWhen | tools/dtbhtool/unpackbootimg.c:99-102 | base and every offset are recovered modulo 2^32 exactly when the kernel was packed at the default offset |
| BootImage.SameAddresses | tools/dtbhtool/mkbootimg.c:198-201 | packing again with what was printed gives the same load addresses, whatever the kernel's offset |
| BootImage.HdrRoundTrip | tools/dtbhtool/bootimg.h:28-50 | the header reads back field by field |
| BootImage.CStringOfField | tools/dtbhtool/mkbootimg.c:232-236 | a command line that leaves room for its terminator is read back as it was |
| BootImage.MaskIsRemainder | tools/dtbhtool/mkbootimg.c:97-104 | for the supported page sizes the mask gives the remainder |
| BootImage.WritePadding | tools/dtbhtool/mkbootimg.c:95-111 | writes zeros to the next page boundary |
| BootImage.MkBootImg | tools/dtbhtool/mkbootimg.c:178-342 | writes the image exactly when page size, board name and command line are accepted and the image fits on the disk; the file is removed exactly when it does not fit, and input that is refused writes nothing |
| BootImage.ImageNumbers | tools/dtbhtool/mkbootimg.c:198-320 | magic, sizes, load addresses and page size are at their places in the image: base plus offset, modulo 2^32, and the lengths of the parts |
| BootImage.ImageStrings | tools/dtbhtool/mkbootimg.c:226-305 | so are the board name and the command line, with zeros behind them, and the id |
| BootImage.ImageParts | tools/dtbhtool/mkbootimg.c:311-332 | kernel, ramdisk, second stage, device tree and signature are where they belong, each followed by zeros; a second stage by as many as the ramdisk |
| BootUnpack.FoundExactlyWhen | tools/dtbhtool/unpackbootimg.c:83-95 | the scan finds the image behind a prefix exactly when the magic does not occur in the prefix |
| BootUnpack.ScanExactlyWhen | tools/dtbhtool/unpackbootimg.c:83-93 | in any file of eight bytes or more the scan finds the first offset up to 512 at which the magic is, and no other, whatever the buffer held and however short the reads are |
| BootUnpack.UnpackOutcome | tools/dtbhtool/unpackbootimg.c:83-115 | how the unpacker ends on such a file: no magic, a header that is cut off, a page size that is no positive int, or contents |
| BootUnpack.SectionIs | tools/dtbhtool/unpackbootimg.c:153-216 | a section is the bytes from where the last padding ended, if the file has so many |
| BootUnpack.AskedPageCounts | tools/dtbhtool/unpackbootimg.c:107-109 | a page size that is asked for is the one that counts, whatever the header says |
| BootUnpack.ScanForMagic | tools/dtbhtool/unpackbootimg.c:83-93 | the scan on any file, with the buffer that short reads leave partly as it was |
| BootUnpack.ReadPadding | tools/dtbhtool/unpackbootimg.c:14-30 | skips to the next page boundary or the end of the file |
| BootUnpack.UnpackBootImg | tools/dtbhtool/unpackbootimg.c:83-216 | the unpacker on any file: not found, header cut off, unusable page size, or header and sections |
| BootUnpack.SectionsRead | tools/dtbhtool/unpackbootimg.c:153-216 | sections that are padded by their own sizes are read as they were, and what follows is the signature |
| BootUnpack.RoundTrip | tools/dtbhtool/unpackbootimg.c:83-216 | board name, command line, id, sizes, addresses and page size, and kernel, ramdisk, second stage, device tree and signature come back from behind any prefix of at most 512 bytes without the magic, when the second stage, if any, needs as much padding as the ramdisk |
| BootUnpack.DtFoundExactlyWhen | tools/dtbhtool/mkbootimg.c:320-328 | with a second stage, the unpacker looks for the device tree where it was put exactly when second stage and ramdisk need the same padding |
| MetadataStore.StepIsMapStepExactlyWhen | libshims/libcamera_client/CameraMetadata.cpp:246-359 | an update, erase, append, release, clear or acquire that succeeds does to the map what it should, exactly unless it erases a tag of several entries |
| MetadataStore.StepKeepsRoom | libshims/libcamera_client/CameraMetadata.cpp:361-395 | every operation keeps a buffer within its room, and one that fails changes nothing at all |
| MetadataStore.StepKeepsUniqueExactlyWhen | libshims/libcamera_client/CameraMetadata.cpp:246-252 | from unique tags an operation that succeeds leaves unique tags exactly when it appends only new, unique tags and takes over only a buffer with unique tags |
| MetadataStore.EraseUncovers | libshims/libcamera_client/CameraMetadata.cpp:282-288 | appending a tag that is there and erasing it brings the appended value to light |
| MetadataStore.RunIsMapRun | libshims/libcamera_client/CameraMetadata.cpp:202-359 | over any run in which no erase meets a tag of several entries, the object is a map to which the operations that succeeded were applied in order; appended values are hidden by those that are there |
| MetadataStore.UniqueRunIsMapRun | libshims/libcamera_client/CameraMetadata.cpp:202-359 | so it is, with unique tags throughout, when appends bring new tags only |
| MetadataStore.PutIsMapWrite | libshims/libcamera_client/CameraMetadata.cpp:345-353 | writing an entry at its place or at the end is a map write, and tags are unique afterwards exactly if they were |
| MetadataStore.RemoveIsMapRemoveExactlyWhen | libshims/libcamera_client/CameraMetadata.cpp:282-288 | deleting the first entry of a tag is a map removal exactly when there is no other entry of it |
| MetadataStore.AppendKeepsUniqueExactlyWhen | libshims/libcamera_client/CameraMetadata.cpp:246-252 | appending keeps tags unique exactly when they are unique on both sides and no tag is on both |
| MetadataStore.AppendIsMerge | libshims/libcamera_client/CameraMetadata.cpp:246-252 | appended entries are found where there was none of their tag; an older entry of the same tag hides them |
| MetadataStore.ResizeMakesRoom | libshims/libcamera_client/CameraMetadata.cpp:361-395 | a successful resize leaves room for the extra entries and data and keeps the contents; an exceeded capacity becomes twice what is needed, another stays; without memory nothing changes |
| MetadataStore.ResizeFailsExactlyWhen | libshims/libcamera_client/CameraMetadata.cpp:361-395 | a resize fails exactly when a larger buffer is needed and there is no memory |
| MetadataStore.UpdateFailsExactlyWhen | libshims/libcamera_client/CameraMetadata.cpp:330-359 | an update is refused exactly when the object is locked, then exactly when the tag has no type, and then runs out of memory exactly when entries or data exceed their capacity and there is none |
| MetadataStore.AppendFailsExactlyWhen | libshims/libcamera_client/CameraMetadata.cpp:246-252 | an append, locked or not, fails exactly when entries or data exceed their capacity and there is no memory |
| MetadataStore.OthersFailExactlyWhen | libshims/libcamera_client/CameraMetadata.cpp:182-288 | erasing fails exactly without a buffer, unlocking exactly without the lock or with another buffer, release, clear and acquire exactly while locked; release and clear leave no buffer |
| MetadataStore.LockedExactlyWhen | libshims/libcamera_client/CameraMetadata.cpp:182-198 | after any run the object is locked exactly when the last that was done about the lock, by getting the buffer or by unlocking with it, was to lock it, or nothing was and it was locked before |
| MetadataStore.LockRefuses | libshims/libcamera_client/CameraMetadata.cpp:182-296 | from getting the buffer until unlocking with it, over any operations before and in between, every update, unlock with another buffer, release, clear and acquire is refused and changes nothing |
| MetadataStore.UnlockLetsThrough | libshims/libcamera_client/CameraMetadata.cpp:187-198 | unlocking with the same buffer then succeeds and keeps the contents, and the next update of a known tag with memory is written |
| MetadataStore.RunGrows | libshims/libcamera_client/CameraMetadata.cpp:361-395 | over any run r reallocations for entries multiply the entry capacity, plus two, by at least 2^r |
| MetadataStore.LockedChangesExactlyWhen | libshims/libcamera_client/CameraMetadata.cpp:182-296 | the contents of a locked object change exactly by erasing a tag that is there, and by an append that brings a tag that is not there, where there is room or memory for it |
| MetadataStore.AppendChangesLocked | libshims/libcamera_client/CameraMetadata.cpp:246-252 | appending an entry to a full locked object changes its contents and its buffer, and it stays locked |
| CameraMetadata.CameraMetadata.ResizeIfNeeded | libshims/libcamera_client/CameraMetadata.cpp:361-395 | the contents and room that the specification gives, in another buffer exactly when one is needed and there is memory |
| CameraMetadata.CameraMetadata.UpdateImpl | libshims/libcamera_client/CameraMetadata.cpp:330-359 | the write, with the room made for it |
| CameraMetadata.CameraMetadata.UpdateTag | libshims/libcamera_client/CameraMetadata.cpp:292-296 | refused while locked |
| CameraMetadata.CameraMetadata.EraseTag | libshims/libcamera_client/CameraMetadata.cpp:282-288 | the erase, locked or not |
| CameraMetadata.CameraMetadata.FindTag | libshims/libcamera_client/CameraMetadata.cpp:256-266 | the value of the tag in the map, or nothing |
| CameraMetadata.CameraMetadata.AppendBuffer | libshims/libcamera_client/CameraMetadata.cpp:246-252 | appends, locked or not, and otherwise fails without a change, though the failed resize is not looked at; the buffer, also one handed out by the lock, is replaced exactly when room is needed and there is memory |
| CameraMetadata.CameraMetadata.GetAndLock | libshims/libcamera_client/CameraMetadata.cpp:182-185 | locks and hands out the buffer |
| CameraMetadata.CameraMetadata.UnlockBuffer | libshims/libcamera_client/CameraMetadata.cpp:187-198 | unlocks only when locked and for the same buffer |
| CameraMetadata.CameraMetadata.Release | libshims/libcamera_client/CameraMetadata.cpp:202-210 | gives the buffer away, unless locked |
| CameraMetadata.CameraMetadata.Acquire | libshims/libcamera_client/CameraMetadata.cpp:223-230 | takes a buffer, unless locked |
| CameraMetadata.CameraMetadata.AcquireFrom | libshims/libcamera_client/CameraMetadata.cpp:232-238 | takes over another object's buffer; if that one is locked, this object loses its own |

## Left out

- StrDup8to16.StrDup8to16: the source does not look at what malloc answers before it copies; the model's allocation succeeds. Strings are at most half of SIZE_MAX long.
- StrDup8to16.StrLen8to16: `expected` is an int that a run of 2^31 extension bytes would wrap; the model lets it go on falling.
- StrDup8to16.StrCpyLen8to16: asks that the range lies inside the string, where the decoder cannot stay at a NUL; what happens otherwise is `ModifiedUtf8.RangeCopyTerminates`.
- AudioHw.AudioDevice.SelectDevices: which devices the tables answer, and whether the active input is to be selected first, is a choice; when the first input usecase is a voice call the source reads its output stream as an input stream, which the model takes as no nested selection.
- AudioRouting.SelectKeeps: has no nested selection for a voice call either.
- AudioHw.AudioDevice.EnterUsecase: the id is not in the list yet, as the framework sees to.
- AudioHw.AudioDevice.StartStreamUsecase: likewise.
- AudioHw.AudioDevice.StartVoiceCall: likewise, for the call.
- AudioRouting.StepKeeps: asks for at most one live usecase for each id and no start of a second call, as the framework sees to.
- CaptureFlow.ManyProcessesConserve: a standby that the client asks for between calls drops what is buffered and starts a new session; only failing calls are followed from session to session.
- Capture.StreamIn.RunEffects: the chain of effects is one step that takes and yields no more than it is offered; the copy that moves the rest to the front is a move, although the source uses memcpy on ranges that may overlap.
- CaptureFlow.ProcessTakes: effects that ask for more than they are offered get what there is.
- Capture.StreamIn.MoveToFront: likewise a move.
- Capture.StreamIn.ProcessLoop: when the effects yield nothing for good the source loops for good; the model stops where the effects' script ends.
- Offload.ListedExactlyWhenActive: assumes the stop hook, no write while paused, paths that can be enabled, and no sleeping flush that is overtaken; `Offload.StepKeepsExactlyWhen` has none of these assumptions. Both leave out a call that a lock is kept from for good.
- OffloadRouting.CountsAndListAgree: likewise; while a standby sleeps it keeps the device lock, so no event of others comes in between.
- Offload.InputsLockIsKeptExactlyWhen: the captures that would wait for that lock as well are in `Capture`, without locks.
- OffloadThread.CallsAreSafe: the play state of the stream and its usecase are in `Offload` and `OffloadRouting`, not in the interleaving; allocation of commands and paths succeeds.
- OffloadThread.EveryWaitEnds: a call of the driver on the thread's side returns at some time; that is a step that is always enabled, not a promise on when. A signal wakes one client, though the system may wake more; `pre_lock`, which only orders who gets the stream lock, is not modelled.
- DtbhTool.LoadDtbhBlock: the trees are numbered where the source links them in a list; directory walking and the reading of properties are not part of the model. Page sizes are powers of two of at least 32, and the block is smaller than 2^32 bytes.
- DtbhTool.UnpackFile: the page size is at least the 12 bytes of the header. What a short read leaves in memory is not given; entries that the count puts beyond the page that was read are an error of their own.
- DtbhFiles.StaysExactlyWhen: every file can be created and written in full.
- DtbhSort.SortEntries: stands for the library's qsort, of which the theorems need only that it permutes (`Dtbh.OffsetRightExactlyWhen`, `DtbhTool.RoundTrip`).
- BootImage.MkBootImg: a write fails only for want of room; files are loaded, have less than 2^31 bytes, and a signature file has at least 256; the SHA-1 id, options and file names are not part of the model.
- BootUnpack.ScanExactlyWhen: in a file of fewer than eight bytes what the buffer held before decides; `BootUnpack.ScanForMagic` has no such restriction.
- BootUnpack.UnpackBootImg: gives the buffers that are read; the source writes second stage, device tree and signature through a file handle that it has closed. The choice between the two ramdisk names is not modelled.
- CameraMetadata.CameraMetadata.UpdateTag: takes the bytes of as many values as the caller names; that the caller's type has the size of the tag's type is not checked by the source either. Capacities do not wrap.
- CameraMetadata.CameraMetadata.AppendBuffer: the object's own buffer is appended only while it has room for itself; otherwise the source frees the buffer before it reads it.
- The C library behind CameraMetadata is specified as a bounded list of entries and a pool of which only the size counts; offsets inside the pool, sorting and freeing are not modelled.
- Mixer paths, amplifier, PCM and compress devices, the modem, properties and sysfs: their answers are parameters, their effects are left out.
- The resampler, the echo reference and the configuration of effects: their behaviour is in libraries that are not part of this repository.
- The device tables, latency estimates, Bluetooth SCO and voice PCM devices, `mkdtbimg.c`, and the small shims and feature tables: constant tables, look-ups in them, and calls passed on to a driver or a library.
