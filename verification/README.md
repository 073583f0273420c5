# Proofs about the FreeDesk host agent

Dafny models of the stateful and arithmetic parts of the host agent, and proofs of
what they promise. Each module follows one source file, or one job that several
share. Where the source changes things step by step, the model is a method or a class
proved against a specification function, and the lemmas are about that function.
Where goroutines or callbacks interleave, the model is a step function over the
sections that run undivided, and the theorems are about every run of it.

Verify everything with `dafny verify dfyconfig.toml`.

## What is modelled

| module | part |
|---|---|
| `Prelude`, `Runs` | sums and packed rows; runs of a step function, and what every run keeps |
| `Utf8`, `SafeNames`, `NameFacts` | the sanitising of file names, on bytes |
| `Messages`, `Destination` | control frames and their limits; the folder files are received into |
| `Receive`, `Sessions` | the receiving session: each critical section as a function, and the object |
| `ReceiveRuns` | all interleavings of offers, frames and Close, and the invariant they keep |
| `ReceiveNames`, `ReceiveFacts` | under which names files are saved; what every run means for the folder and the viewer |
| `RoundTrip` | the viewer's upload loop against the session |
| `SendPacing` | the send queue, its marks and its wake-up; sending one file |
| `Axis`, `Weighted`, `Scaling`, `FdScaler` | the area-averaging scaler |
| `I420`, `Conversion` | BGRA to I420, and the choice of the encoded size |
| `Pipeline`, `Pictures` | what passes between the capture and the encoder goroutines, and which picture is encoded |
| `CaptureLoop`, `CaptureTicks` | which ticks become jobs |
| `EncodeLoop`, `EncodeTurns` | what is encoded, on which encoder and for how long |
| `Cursor` | the mouse pointer drawn into a frame and taken out again |
| `Input`, `InputDevice`, `InputEvents` | what is held down, by the handler and by the injector, the gate, and what is posted where |
| `Inbox` | connection requests, handled once |
| `Signaling`, `Carried` | one session's signaling stream, replays absorbed; what its events carry |
| `StatusBuffer`, `Transport` | the lossy status buffer; the transport as an object |

## How the outside appears

What code that cannot be seen answers is a parameter, and the theorems hold for all of
its values: whether a write, a rename or a removal succeeds, what GDI draws within the
rectangle of the cursor, whether macOS lets an event be posted and in which order a map
is walked, what libvpx makes of a picture, when the operator says yes. Clocks are
integers. Files of the destination folder are changed by the session alone, and their
names are compared byte for byte, while the file systems of Windows and macOS usually
fold case.

The offers' check for room on the disk and the operator's answer are one choice in
`ReceiveRuns`: either refuses the batch.

## Found on the way

These are where the source does less than its comments say, or needs an assumption it
does not state. The model follows the code.

- The comment that the scaler's weights sum to exactly 256 and fit 16 bits does not hold
  of every size. One tap and two are always fair; with n >= 3 taps the weights are fair
  if and only if the first and the last, as rounded, and n - 3 times an inner one, come to
  no more than 256 (`Axis.WellWeighedIff`). That is so at every ratio up to 24
  (`Axis.RatioOf24LeavesEnough`), and wherever there are at most 24 taps; 73 pixels onto 3
  have 25, and fail it (`Axis.CorrectionCanWrap`). `Converter` does not refuse such sizes;
  a desktop up to 16 times as wide as its encoded picture is safe
  (`Conversion.BothRatiosFair`).
- finishFile takes the lock again without looking whether the batch is the same or
  complete; only one delivery thread makes that safe
  (`ReceiveFacts.TwoThreadsSaveAnEmptyFile`).
- SafeName is not always idempotent: `SafeNames.NoBreakSpaceLost` and
  `SafeNames.ShorteningCanReserve` are inputs whose safe name comes out differently, or
  not at all, when Create looks at it again. Twice is once for inputs of at most 200 bytes
  without white space outside ASCII (`SafeNames.SafeNameIdempotent`);
  `SafeNames.ShortNameTwice` and `SafeNames.SoundTwice` say exactly when it is.
- Two downloads at once share one wake-up token, and one can wait until the stall
  timeout beside an empty queue (`SendPacing.TwoSendersCanStall`).
- streamFile's check that a file did not change lets one pass that grew, if its offered
  size is a multiple of the chunk size (`SendPacing.StreamFile`).
- Once the capture is cancelled, send may drop the job that carries the first picture
  and a restart, and the encoder's guard against having none is then reached
  (`Pipeline.CancelledCanLoseThePicture`).
- The inbox's five-minute memory is enough exactly if no request is delivered, still
  usable, more than five minutes after it was before (`Inbox.SweepingIsHarmlessIff`). A
  server clock ahead of the host's can break that (`Inbox.ServerAheadHandlesTwice`).

## Model

| member | source | states |
|---|---|---|
| `ReceiveRuns.StepKeeps` | `host-agent/internal/transfer/session.go:141-446` | every critical section, in any interleaving of offer goroutines, the delivery thread and Close, keeps the invariant of offers, batch, limits and disk, never goes back on what was saved, and leaves a partial file behind only where its removal was refused |
| `ReceiveFacts.NewNamesAreWholeFiles` | `host-agent/internal/transfer/session.go:306-399` | after any run, a name in the folder is an old one, a saved file, the one open partial file, or a partial file the system would not remove; a saved file holds exactly its declared number of bytes and exactly the chunks delivered while it was open, under the safe form of the name agreed to, numbered only as far as the earlier candidates were taken |
| `ReceiveNames.StepProper` | `host-agent/internal/transfer/session.go:141-446` | every step also keeps, of each file saved and of the one open, that its path is the first free candidate for the name agreed to, and that the batch remembers exactly what was saved of it |
| `ReceiveNames.CreateNames` | `host-agent/internal/transfer/dest.go:72-109` | what Create opens is the safe name, or that name numbered because every earlier candidate was taken |
| `ReceiveFacts.NothingIsOverwritten` | `host-agent/internal/transfer/dest.go:64-152` | no file that was in the folder, and none once saved, is ever changed or removed in any continuation of a run |
| `ReceiveFacts.NothingIsLeftBehind` | `host-agent/internal/transfer/dest.go:141-152` | while partial files can be removed, the folder is the old files, the saved files and the one open partial file, nothing else |
| `ReceiveFacts.QuietAfterClose` | `host-agent/internal/transfer/session.go:431-446` | once closed, the folder never changes again and no file is open |
| `ReceiveFacts.LimitsHoldThroughout` | `host-agent/internal/transfer/session.go:264-283` | files saved plus files left never exceed 200, bytes saved plus bytes declared and left never exceed 4 GiB, though the check and the opening are separate sections |
| `ReceiveFacts.ApprovedIsBusyOnlyIfClosed` | `host-agent/internal/transfer/session.go:210-223` | an approved batch can begin exactly if the session is not closed |
| `ReceiveFacts.FailureIsOwn` | `host-agent/internal/transfer/session.go:220-262` | takeFailure gives a goroutine the failure of its own batch, and the fallback only in a closed session |
| `ReceiveFacts.OneQuestionAtATime` | `host-agent/internal/transfer/session.go:228-248` | at most one offer is past the claim, and the claim is set while and only while there is one |
| `ReceiveFacts.TwoThreadsSaveAnEmptyFile` | `host-agent/internal/transfer/session.go:306-399` | were an empty chunk delivered by a second thread between the chunk that completes a file and finishFile, both would call finishFile, and the second call would save the next file of the batch empty |
| `ReceiveFacts.DoneMeansSaved` | `host-agent/internal/transfer/session.go:354-395` | f-done is sent exactly for a file saved, naming it; an f-error with its reason after it, exactly when the batch ends early, and alone when the file could not be completed |
| `ReceiveFacts.ProgressIsTrue` | `host-agent/internal/transfer/session.go:309-352` | a progress frame states the bytes of the file that are there; any other answer to a chunk ends the batch |
| `ReceiveFacts.PastedIsTheBatch` | `host-agent/internal/transfer/session.go:371-398` | the paths handed to the clipboard are those of the batch, all of them, in order, each for its own name, on disk and whole |
| `ReceiveFacts.CancelEndsTheBatch` | `host-agent/internal/transfer/session.go:411-429` | a cancel with the id of the batch being written, or with none, ends it, and takes its partial file, if that can be removed, and nothing else from the folder |
| `ReceiveFacts.OtherCancelIsNothing` | `host-agent/internal/transfer/session.go:411-419` | a cancel with any other id does nothing at all |
| `ReceiveFacts.LateCancelChangesNothing` | `host-agent/internal/transfer/session.go:411-419` | wherever in a run such a cancel comes, the run ends as without it: a late cancel never ends a later batch |
| `ReceiveFacts.ClaimedExactly` | `host-agent/internal/transfer/session.go:228-242` | an offer is taken up exactly while no other is being decided, no batch is being written and the session is not closed |
| `ReceiveFacts.AskedExactly` | `host-agent/internal/transfer/session.go:186-214` | the operator is asked exactly about offers whose names are all safe and that, with what was saved, come to at most 200 files and 4 GiB |
| `ReceiveFacts.DeclinedLeaves` | `host-agent/internal/transfer/session.go:199-223` | an offer declined, and one whose failure was taken away, is about to give its claim back |
| `ReceiveFacts.BegunLeaves` | `host-agent/internal/transfer/session.go:210-223` | so is one whose batch began; one whose batch could not has its failure to take |
| `ReceiveFacts.LeavingIsReleased` | `host-agent/internal/transfer/session.go:244-248` | and then the claim is given back and the offer gone |
| `ReceiveFacts.BatchIsTheOffer` | `host-agent/internal/transfer/session.go:271-304` | a batch that begins is the one offered, with its id, names, sizes and whether it was pasted; if its first file cannot be opened, the reason left is bad-name exactly for a name that is not safe |
| `ReceiveFacts.BatchStays` | `host-agent/internal/transfer/session.go:354-399` | until it is over, a batch keeps its id, names, sizes and whether it was pasted |
| `ReceiveFacts.ChunkAnswers` | `host-agent/internal/transfer/session.go:309-352` | a chunk ends the batch exactly if it is longer than what is missing or its write fails, and is answered by that reason; otherwise by how much is there, if that is due |
| `ReceiveFacts.StrayChunkIsDropped` | `host-agent/internal/transfer/session.go:309-316` | with no batch, a chunk is dropped without a word |
| `ReceiveFacts.PastedExactly` | `host-agent/internal/transfer/session.go:371-398` | the clipboard gets the paths exactly when the last file of a pasted batch is saved |
| `ReceiveRuns.ChunkKeeps` | `host-agent/internal/transfer/session.go:309-352` | a chunk, written, too long or failed, keeps all of the invariant |
| `ReceiveRuns.FinishKeeps` | `host-agent/internal/transfer/session.go:355-399` | finishFile, in the gap after the completing chunk, keeps all of the invariant |
| `ReceiveRuns.BeginKeeps` | `host-agent/internal/transfer/session.go:271-304` | opening the first file of a batch keeps all of the invariant |
| `ReceiveRuns.AbortKeeps` | `host-agent/internal/transfer/session.go:411-429` | giving a batch up keeps all of the invariant |
| `ReceiveRuns.CreatesFresh` | `host-agent/internal/transfer/dest.go:72-109` | what Create opens exists under neither of its names |
| `ReceiveRuns.OneBadName` | `host-agent/internal/transfer/session.go:188-197` | one unusable name refuses the batch |
| `ReceiveRuns.MakeAllSafe` | `host-agent/internal/transfer/session.go:186-197` | the loop over an offer's names gives the safe names of all of them, or refuses exactly when one has none |
| `Sessions.Session.ClaimPending` | `host-agent/internal/transfer/session.go:228-242` | claims exactly when not closed, not pending and with no batch |
| `Sessions.Session.ReleasePending` | `host-agent/internal/transfer/session.go:244-248` | gives the claim back and changes nothing else |
| `Sessions.Session.TakeFailure` | `host-agent/internal/transfer/session.go:250-262` | the failure left behind, taken away, or the fallback |
| `Sessions.Session.OpenLocked` | `host-agent/internal/transfer/session.go:285-304` | the batch's current file opened as Create answers, or the batch cleared and the frame to send |
| `Sessions.Session.BeginBatch` | `host-agent/internal/transfer/session.go:270-283` | the new state after a batch begins, is refused, or fails to open |
| `Sessions.Session.HandleChunk` | `host-agent/internal/transfer/session.go:306-352` | the new state, the frames sent and whether finishFile follows |
| `Sessions.Session.FinishFile` | `host-agent/internal/transfer/session.go:354-399` | the new state, the frames sent and the paths for the clipboard |
| `Sessions.Session.Abort` | `host-agent/internal/transfer/session.go:411-419` | the batch of that id, or with none any, given up with its partial file, and no other |
| `Sessions.Session.AbortLocked` | `host-agent/internal/transfer/session.go:421-429` | the partial file abandoned and the batch gone |
| `Sessions.Session.Close` | `host-agent/internal/transfer/session.go:431-446` | closed, with whatever is open given up; nothing the second time |
| `Destination.Dest.Create` | `host-agent/internal/transfer/dest.go:72-109` | the loop finds what the search over candidates finds, and adds an empty partial file under that name only |
| `Destination.Dest.Finish` | `host-agent/internal/transfer/dest.go:121-139` | the partial file becomes the final name, or nothing changes |
| `Destination.Dest.Abandon` | `host-agent/internal/transfer/dest.go:141-152` | the partial file is removed, if the system lets it |
| `Destination.CreateIsFresh` | `host-agent/internal/transfer/dest.go:81-106` | a name opened was free in both forms, is 1 to 206 bytes, and with ".part" at most 211 |
| `Destination.SearchFindsFree` | `host-agent/internal/transfer/dest.go:82-107` | the name found is the first candidate that is free |
| `Destination.TooManyMeansAllTaken` | `host-agent/internal/transfer/dest.go:82-108` | the search gives up exactly when all hundred candidates are taken |
| `Destination.CandidatesDiffer` | `host-agent/internal/transfer/dest.go:81-86` | no two of the hundred candidates are the same name |
| `Destination.NumberedBeforeExtension` | `host-agent/internal/transfer/dest.go:81-86` | a candidate but the first is the name with a space and, in parentheses, one more than the candidates before it, in decimal, put in before its last dot |
| `Destination.SmallFolderHasRoom` | `host-agent/internal/transfer/dest.go:82-108` | a folder of fewer than fifty files always has a free candidate |
| `Messages.TotalSize` | `host-agent/internal/transfer/message.go:106-113` | the sum of the declared sizes |
| `Messages.TotalFitsInt64` | `host-agent/internal/transfer/message.go:142-154` | the sum is taken only of sizes already checked and fits 64 bits |
| `RoundTrip.SendFile` | `frontend/src/composables/useFileTransfer.ts:427-450` | sends the file's slices in order, none left out |
| `RoundTrip.RunBatch` | `frontend/src/composables/useFileTransfer.ts:379-385` | sends file after file |
| `RoundTrip.FramesAreTheFile` | `frontend/src/composables/useFileTransfer.ts:429-442` | the frames of a file, put together, are the file |
| `RoundTrip.FramesAreChunks` | `frontend/src/composables/useFileTransfer.ts:427-442` | no frame is empty or longer than a chunk, and only the last may be shorter |
| `RoundTrip.FileArrives` | `host-agent/internal/transfer/session.go:309-399` | for any positive chunk size, the frames of one file save exactly that file, from exactly those chunks, and open the next one |
| `RoundTrip.SendThenReceive` | `frontend/src/composables/useFileTransfer.ts:379-450` | what the host saves of a batch is its first k files, in order, whole and under their names (numbered where taken), and either these are all or there was no name for the next one |
| `RoundTrip.SmallFolderRoundTrip` | `frontend/src/composables/useFileTransfer.ts:379-450` | with no more than fifty files in the folder in the end, and names offered of at most 200 bytes without white space outside ASCII, every file of the batch is saved, whole and under its name: sending and receiving is the identity |
| `RoundTrip.FreshSessionRoundTrip` | `frontend/src/composables/useFileTransfer.ts:379-450` | from a session just begun, through the offer and the yes: under the same condition on the folder and the offer, the folder ends up with what it held and every file of the batch, whole, under its safe name or that name numbered past those before it, and nothing else |
| `RoundTrip.OfferIsAsked` | `host-agent/internal/transfer/session.go:173-214` | a well-formed offer with safe names, in a session just begun, reaches the operator |
| `RoundTrip.OneFileArrives` | `frontend/src/composables/useFileTransfer.ts:379-450` | one file of any such name and any content, at any chunk size, into an empty folder: the folder is then exactly that file under its safe name |
| `SafeNames.MakeSafe` | `host-agent/internal/transfer/name.go:42-104` | the method computes SafeName |
| `SafeNames.Truncate` | `host-agent/internal/transfer/name.go:117-134` | the loop cuts to the longest beginning of whole code points that fits |
| `SafeNames.ScanRunes` | `host-agent/internal/transfer/name.go:62-74` | the loop finds a forbidden code point exactly if there is one |
| `SafeNames.SafeNameIsSound` | `host-agent/internal/transfer/name.go:34-104` | every name returned is valid UTF-8 of 1 to 200 bytes, with no forbidden character, not beginning with white space, ending in neither dot nor space |
| `SafeNames.LastCheckNeverFires` | `host-agent/internal/transfer/name.go:99-103` | the final check for a plain component rejects nothing that gets to it |
| `NameFacts.RefusedExactly` | `host-agent/internal/transfer/name.go:42-88` | a name of at most 200 bytes of ASCII is refused exactly if, trimmed, it has a forbidden byte, nothing is left of it, or it names one of the 22 devices |
| `NameFacts.NoForbiddenByte` | `host-agent/internal/transfer/name.go:53-68` | no safe name has a control character or one of the nine forbidden marks |
| `NameFacts.NothingTurnsText` | `host-agent/internal/transfer/name.go:69-74` | no code point of a safe name turns the direction of text |
| `NameFacts.AgreedIsNoDevice` | `host-agent/internal/transfer/name.go:84-88` | no name that needed no shortening is that of a device, in any case and with any extension |
| `NameFacts.LongNameKeepsExtension` | `host-agent/internal/transfer/name.go:117-134` | a name too long keeps an extension of at most 100 bytes, and before it a beginning of the rest, cut by no more than part of a code point and the dots and spaces then last |
| `SafeNames.SafeNameIdempotent` | `host-agent/internal/transfer/name.go:42-104` | for every input of at most 200 bytes without white space outside ASCII, SafeName applied to its own result returns it unchanged |
| `SafeNames.ShortNameTwice` | `host-agent/internal/transfer/name.go:42-104` | for every input of at most 200 bytes, that holds exactly when the input, white space and then dots and spaces trimmed, does not end in white space |
| `SafeNames.SoundTwice` | `host-agent/internal/transfer/name.go:42-104` | any sound name, such as one agreed to that Create looks at again, comes out unchanged exactly when it does not end in white space and is not a reserved name |
| `SafeNames.SafeNameTwice` | `host-agent/internal/transfer/name.go:42-104` | all that SafeName returns is such a name, whatever the input, and reserved only if it was shortened |
| `SafeNames.NoBreakSpaceLost` | `host-agent/internal/transfer/name.go:43-82` | SafeName of a, no-break space, dot is a, no-break space; SafeName of that is a |
| `SafeNames.ShorteningCanReserve` | `host-agent/internal/transfer/name.go:84-97` | SafeName of a certain name of over 200 bytes is CON.txt, which SafeName refuses |
| `SafeNames.CheckedIsSound` | `host-agent/internal/transfer/name.go:43-88` | a name past the checks is clean and not reserved |
| `SafeNames.FittedIsSound` | `host-agent/internal/transfer/name.go:90-97` | a clean name made to fit is clean and at most 200 bytes, or empty |
| `SafeNames.CutToClean` | `host-agent/internal/transfer/name.go:125-128` | cutting from the end stops only at code-point boundaries |
| `Utf8.DecodeLastFindsIt` | `host-agent/internal/transfer/name.go:126-127` | decoding backwards finds the last code point of valid text, and its length |
| `Axis.TapsInsideSource` | `host-agent/internal/vpx/convert.c:95-98` | the taps of an output pixel are at least one and all inside the source, and cover its interval with none to spare |
| `Axis.OverlapsTile` | `host-agent/internal/vpx/convert.c:101-103` | the overlaps tile the output pixel's interval from its left edge on |
| `Axis.OverlapsSumToSource` | `host-agent/internal/vpx/convert.c:101-103` | the overlaps are positive and add up to exactly the interval |
| `Axis.WellWeighedIff` | `host-agent/internal/vpx/convert.c:95-113` | for every size, the corrected weights of an output pixel are in 0..256 and sum to exactly 256 if and only if it has at most two taps, or its taps but one inner one, as rounded, weigh no more than 256 |
| `Axis.RatioOf24LeavesEnough` | `host-agent/internal/vpx/convert.c:95-113` | they weigh no more for src up to 24 times dst |
| `Axis.WeightsSumTo256` | `host-agent/internal/vpx/convert.c:95-113` | so for src up to 24 times dst, the corrected weights are in 0..256 and sum to exactly 256 |
| `Axis.WeightsSumTo256UpTo24Taps` | `host-agent/internal/vpx/convert.c:95-113` | the same for any output pixel of at most 24 taps |
| `Axis.CorrectionCanWrap` | `host-agent/internal/vpx/convert.c:111` | 73 pixels onto 3, 25 taps: the correction is -1 and stored as 65535 |
| `Axis.CorrectionWrapsAt512` | `host-agent/internal/vpx/convert.c:111` | at 512 to 1 the first weight is -255, stored as 65281 |
| `Axis.BuildAxis` | `host-agent/internal/vpx/convert.c:77-115` | the loops build exactly the table the lemmas are about, for every size, and refuse sizes that are not positive |
| `Axis.FillRow` | `host-agent/internal/vpx/convert.c:99-112` | one row of the table, with the correction in the largest weight |
| `Scaling.AccumulatedFits` | `host-agent/internal/vpx/convert.c:183-196` | no 16-bit sum of the vertical pass wraps |
| `Scaling.ChannelsFit` | `host-agent/internal/vpx/convert.c:157-166` | no 32-bit sum of the horizontal pass wraps, and it is the double sum |
| `Scaling.TwoPassesAreOneSum` | `host-agent/internal/vpx/convert.c:153-216` | the two passes equal the one-shot double sum, rounded: floor((sum + 32768) / 65536) |
| `Scaling.ScaledIsAnAverage` | `host-agent/internal/vpx/convert.c:153-216` | a channel lies between the least and the greatest source value it covers, so one colour stays that colour |
| `Scaling.ScaledFrameIsAveraged` | `host-agent/internal/vpx/convert.c:170-216` | wherever the weights are those of the condition above, every channel of a pixel of the scaled frame is the double sum over the patch it covers, rounded, and the pixel is opaque |
| `FdScaler.VerticalPass` | `host-agent/internal/vpx/convert.c:176-196` | the loops accumulate one row, skipping weights of zero, and read nothing outside the source |
| `FdScaler.HorizontalPass` | `host-agent/internal/vpx/convert.c:153-168` | the loop writes one output row, reading padding only with weight zero |
| `FdScaler.FdScaler.Scale` | `host-agent/internal/vpx/convert.c:170-216` | the destination holds exactly the scaled frame, for every size and stride, wrapping included |
| `FdScaler.FdScaler.constructor` | `host-agent/internal/vpx/convert.c:117-136` | the scaler's tables and its padded row |
| `I420.LimitedRange` | `host-agent/internal/vpx/convert.c:19-21` | Y is in 16..235 and U, V in 16..240 for every colour, with nothing cut off by the cast (section 2.5 of Recommendation ITU-R BT.601-7) |
| `I420.GreyHasNoChroma` | `host-agent/internal/vpx/convert.c:20-21` | grey has chroma 128 |
| `I420.PlanesAreLimited` | `host-agent/internal/vpx/convert.c:23-51` | every byte of the three planes is within its limited range |
| `I420.LumaMeans` | `host-agent/internal/vpx/convert.c:19-43` | a Y sample is 16 above 66 red, 129 green and 25 blue of its own pixel, in 256ths, rounded to nearest |
| `I420.ChromaMeans` | `host-agent/internal/vpx/convert.c:20-49` | a U sample is 128 above 112 blue less 74 green and 38 red, a V sample 128 above 112 red less 94 green and 18 blue, of the four pixels of its block, within one step |
| `I420.SampleAt` | `host-agent/internal/vpx/convert.c:29-34` | sample x of line r is byte r*w + x of its plane |
| `I420.StoreBlock` | `host-agent/internal/vpx/convert.c:32-47` | one pass of the inner loop stores the four luma samples of block (i, j) at YStore(i, j, 0) to YStore(i, j, 3) and its chroma samples at CStore(i, j) of the U and the V plane, and nothing else |
| `I420.YStoredOnce` | `host-agent/internal/vpx/convert.c:29-43` | over all blocks, these stores into the Y plane visit every byte of it, each once |
| `I420.ChromaStoredOnce` | `host-agent/internal/vpx/convert.c:29-47` | and those into the U and the V plane every byte of them, each once |
| `I420.BgraToI420` | `host-agent/internal/vpx/convert.c:23-51` | the loops fill the planes with exactly the converted frame, and read no byte outside it |
| `Conversion.OutputSizeFits` | `host-agent/internal/vpx/settings.go:86-106` | both dimensions are even, within the desktop and the cap, but for the minimum of 2 |
| `Conversion.WidthIsLargest` | `host-agent/internal/vpx/settings.go:93-99` | the width is the largest even one within the desktop and the cap; without a cap in the way the size is the desktop but for an odd last row and column |
| `Conversion.CroppingLosesLittle` | `host-agent/internal/vpx/encoder_cgo.go:49-57` | a desktop is cropped exactly if that loses at most its last row and column, and scaled only if a cap narrows it |
| `Conversion.AspectKept` | `host-agent/internal/vpx/settings.go:100-105` | h*srcW and w*srcH differ by at most srcW, unless the height was raised to the minimum of 2 |
| `Conversion.BothRatiosFair` | `host-agent/internal/vpx/settings.go:93-106` | a desktop at most 16 times its encoded width is at most 24 times its encoded height |
| `Conversion.NewConverter` | `host-agent/internal/vpx/encoder_cgo.go:41-59` | refuses exactly the sizes there is nothing to encode of, and those that must be scaled when there is no memory for a scaler |
| `Conversion.Converter.Convert` | `host-agent/internal/vpx/encoder_cgo.go:67-83` | scales or crops, then converts: the planes show the encoded frame, and every read is inside the source or the scaled buffer |
| `Conversion.Image.constructor` | `host-agent/internal/vpx/settings.go:81-84` | planes of w*h and w*h/4 bytes, which are the 2x2 blocks exactly |
| `Pipeline.MergeAssociative` | `host-agent/internal/capture/pipeline.go:312-320` | merging is associative |
| `Pipeline.MergedMeans` | `host-agent/internal/capture/pipeline.go:304-327` | a merged job has the newest time, every flag of any of its jobs, and the picture of the newest that has one |
| `Pipeline.MailboxRefinesQueue` | `host-agent/internal/capture/pipeline.go:304-327` | until a job is dropped, which only a cancelled capture does, the jobs sent are those of the groups received and those waiting, in order; each receive gets the merge of its group |
| `Pipeline.LastSendNeverBlocks` | `host-agent/internal/capture/pipeline.go:323-326` | with one sender, the last select always finds the mailbox empty |
| `Pipeline.ConvertedImageIsPrivate` | `host-agent/internal/capture/pipeline.go:294-300` | the image being written is in no other place |
| `Pipeline.EncodedImageIsPrivate` | `host-agent/internal/capture/pipeline.go:372-405` | the image being encoded is in no other place |
| `Pipeline.AtMostEightImages` | `host-agent/internal/capture/pipeline.go:329-348` | at most eight images are alive |
| `Pipeline.NeverWithoutAPicture` | `host-agent/internal/capture/pipeline.go:372-381` | until a job is dropped, which only a cancelled capture does, the encoder never has a job and no picture; a restart brings its picture |
| `Pipeline.CancelledCanLoseThePicture` | `host-agent/internal/capture/pipeline.go:323-326` | once cancelled, a dropped send can leave the encoder with a job and no picture |
| `Pipeline.ImagePool.TakeImage` | `host-agent/internal/capture/pipeline.go:329-341` | the first image that fits, those before it dropped, or a new one |
| `Pipeline.ImagePool.Recycle` | `host-agent/internal/capture/pipeline.go:343-348` | given back if there is room |
| `Pipeline.ReceivesTakeAnImage` | `host-agent/internal/capture/pipeline.go:330-340` | the machine's single receives end as the loop does |
| `Pipeline.Mailbox.Send` | `host-agent/internal/capture/pipeline.go:304-327` | the mailbox and the pool after a send, whether or not the encoder takes the waiting job meanwhile, and whether or not the last select gives up because the capture is cancelled |
| `Pictures.EncodesTheNewest` | `host-agent/internal/capture/pipeline.go:372-405` | in every run, what is being encoded is the picture of the last job received that has one |
| `Pictures.EncodesTheNewestSent` | `host-agent/internal/capture/pipeline.go:304-405` | until a job is dropped, it is the picture of the last job sent that has one, of those no longer in the mailbox: merging loses no picture but for a newer one |
| `Pictures.SentAreTheTicks` | `host-agent/internal/capture/pipeline.go:286-327` | until a job is dropped, the jobs sent are those the ticks made, in order, each with its time, its flags and a picture of its size |
| `CaptureTicks.TickMakesItsJob` | `host-agent/internal/capture/pipeline.go:237-301` | a tick that reads a screen makes a job exactly if there is something new, an encoder to start, a keyframe asked for and due, or none for 200 ms; and it starts an encoder exactly if it is the first, the size is new, or the desktop was unreadable in between |
| `CaptureTicks.EndsOnlyForCause` | `host-agent/internal/capture/pipeline.go:217-256` | the loop ends exactly when a broken source does not open again or a new size cannot be converted, and a tick without a screen makes no job |
| `CaptureLoop.Capture` | `host-agent/internal/capture/pipeline.go:209-301` | the loop makes exactly the jobs of the step function |
| `CaptureLoop.JobsAreShaped` | `host-agent/internal/capture/pipeline.go:236-299` | the first job starts an encoder, a job that starts one brings a picture and forces no keyframe, and any other job is of the same screen size as the one before |
| `CaptureLoop.KeyframesAreSpaced` | `host-agent/internal/capture/pipeline.go:275-285` | forced keyframes come at least half a second after the keyframe before |
| `CaptureLoop.RequestIsPending` | `host-agent/internal/capture/capture.go:85-98` | a keyframe request is pending exactly until a keyframe made after it |
| `CaptureLoop.NothingIsMissed` | `host-agent/internal/capture/pipeline.go:260-290` | what is new makes a job with a picture; a due request makes a keyframe; a still screen makes a job every 200 ms |
| `EncodeLoop.Encode` | `host-agent/internal/capture/pipeline.go:357-428` | the loop makes exactly the calls and frames of the step function |
| `EncodeTurns.CallIsOfItsTurn` | `host-agent/internal/capture/pipeline.go:372-407` | a call encodes the picture of the last job so far that brings one, with the time and the keyframe request of its own job; on a new encoder exactly if there was none, the job asks for one or the size is another; for as long as the picture took to come, between one tick and four |
| `EncodeTurns.EveryPictureIsEncoded` | `host-agent/internal/capture/pipeline.go:379-400` | while the loop runs, a turn makes a call exactly if there is a picture by then, and a new encoder, if needed, opens |
| `EncodeTurns.EachCallHasItsTurn` | `host-agent/internal/capture/pipeline.go:371-401` | every call is that of one turn, in the order of the turns |
| `EncodeTurns.EndsOnlyForCause` | `host-agent/internal/capture/pipeline.go:388-426` | the loop goes on until an encoder does not open or fails, or a frame is not taken |
| `EncodeLoop.CallsAreClocked` | `host-agent/internal/capture/pipeline.go:382-407` | each encoder's clock starts at zero and runs on by durations of one to four ticks, and it only gets images of its size |
| `EncodeLoop.PtsIsConserved` | `host-agent/internal/capture/pipeline.go:396-406` | between two calls on one encoder, pts moves by the sum of the durations and strictly rises, in microseconds too |
| `EncodeLoop.ElapsedIsConserved` | `host-agent/internal/capture/pipeline.go:417-423` | the Elapsed values sum to last minus first time exactly when no gap is over five seconds, and never to more |
| `EncodeLoop.FramesAreTheCallsSent` | `host-agent/internal/capture/pipeline.go:405-423` | the frames are those of the calls that gave data, in order |
| `Cursor.PaintAll` | `host-agent/internal/capture/pipeline.go:225-267` | over a whole capture, whatever new desktop images and bitmaps the source brings between the ticks and wherever the pointer goes, after every tick the frame is the latest desktop with the pointer of that tick on it |
| `Cursor.PaintTick` | `host-agent/internal/capture/cursor_windows.go:67-101` | one such tick: from what a paint leaves, any change of the image or the bitmap, and the next paint |
| `Cursor.CursorPainter.Paint` | `host-agent/internal/capture/cursor_windows.go:67-101` | after every paint the frame is the desktop with the pointer the system reports drawn on it; unchanged if it says so |
| `Cursor.CursorPainter.PaintPointer` | `host-agent/internal/capture/cursor_windows.go:72-101` | the same for any pointer state, frame replacement and fresh image |
| `Cursor.HotspotIsThePointer` | `host-agent/internal/capture/cursor_windows.go:175-182` | the hotspot of the cursor drawn is where the pointer is |
| `Cursor.RectIsCommon` | `host-agent/internal/capture/cursor_windows.go:179-188` | the rectangle saved is, pixel for pixel, what the cursor and the frame have in common |
| `Cursor.RowsAreItsPixels` | `host-agent/internal/capture/cursor_windows.go:196-219` | and its rows are, byte for byte, those pixels |
| `Cursor.CursorPainter.Draw` | `host-agent/internal/capture/cursor_windows.go:175-194` | draws exactly if any of the cursor is in the frame, and saves what was under it |
| `Cursor.CursorPainter.Restore` | `host-agent/internal/capture/cursor_windows.go:210-219` | gives back the desktop byte for byte |
| `Cursor.CursorPainter.Save` | `host-agent/internal/capture/cursor_windows.go:196-208` | the rows under the rectangle, in a buffer replaced only when too small |
| `Cursor.CursorPainter.Erase` | `host-agent/internal/capture/cursor_windows.go:89-95` | the frame without the old pointer |
| `Cursor.PutBackUndoes` | `host-agent/internal/capture/cursor_windows.go:196-219` | a change within the rectangle is undone by putting the saved rows back |
| `Cursor.RowFits` | `host-agent/internal/capture/cursor_windows.go:179-188` | every row of a clipped rectangle is inside the frame's memory |
| `Cursor.AnimatedCursor.Step` | `host-agent/internal/capture/cursor_windows.go:122-142` | the frame of an animated cursor due now, always one it has, at the rate it states or else the default |
| `Cursor.StepsOn` | `host-agent/internal/capture/cursor_windows.go:138-141` | one frame time later the next frame shows, after the last the first |
| `Input.LayersAgree` | `host-agent/internal/input/handler.go:57-131` | over any run, the key list has no duplicates, the injector holds exactly the modifiers of the handler's codes and no more than its other keys, and the same buttons |
| `Input.NothingStaysHeld` | `host-agent/internal/session/inputgate.go:24-30` | a frame during a prompt, and the channel closing, leave nothing held in either layer |
| `Input.EventsTellTheTruth` | `host-agent/internal/input/inject_darwin.go:251-319` | while posting is allowed, every event's flags are the modifiers held and Caps Lock, and the events seen show exactly what is held |
| `Input.NothingStaysPressed` | `host-agent/internal/input/handler.go:99-118` | once the viewer is gone, whoever read the events sees nothing down |
| `Input.FlagsIdentify` | `host-agent/internal/input/inject_darwin.go:79-91` | the flags tell exactly which modifiers are held, left and right apart |
| `Input.LastCommandLetsGo` | `host-agent/internal/input/inject_darwin.go:274-306` | the last Command key coming up lets every other key go |
| `Input.GatePostsOnlyReleases` | `host-agent/internal/session/inputgate.go:11-30` | while a prompt is up, a frame posts nothing but releases |
| `Input.HandledAgrees` | `host-agent/internal/input/handler.go:66-96` | each message keeps the two layers in agreement |
| `Input.ReleasedHoldsNothing` | `host-agent/internal/input/handler.go:99-118` | ReleaseAll leaves nothing held |
| `InputEvents.PointIsPlace` | `host-agent/internal/input/inject_darwin.go:321-331` | x goes along the width and y along the height, each times that length, but no less than 0 and no more than one point inside it |
| `InputEvents.EventsAnswer` | `host-agent/internal/input/handler.go:57-118` | on a main display of one size, every event posted for a frame answers it, and every mouse event is where the viewer said the pointer was last, on a release too |
| `InputEvents.MessageIsPosted` | `host-agent/internal/input/handler.go:57-97` | while posting is allowed, every message that changes something is posted at once, in as many events as it should |
| `InputEvents.HeldIsWhatIsDown` | `host-agent/internal/input/handler.go:57-131` | over any run, the handler holds exactly the keys and buttons that are down by the viewer's last word on them since all was last released |
| `InputEvents.LastDownGoesUpFirst` | `host-agent/internal/input/handler.go:99-110` | keys are held in the order they went down and go up in reverse |
| `InputDevice.CgInput.Press` | `host-agent/internal/input/inject_darwin.go:251-292` | the injector's new state and events for a key |
| `InputDevice.CgInput.ModifierKey` | `host-agent/internal/input/inject_darwin.go:268-280` | the same for a modifier |
| `InputDevice.CgInput.LetGoOfKeys` | `host-agent/internal/input/inject_darwin.go:294-306` | every key let go, in whatever order the map is walked |
| `InputDevice.CgInput.Flags` | `host-agent/internal/input/inject_darwin.go:308-319` | the union over the modifiers held and Caps Lock, in whatever order |
| `Input.PointStaysInside` | `host-agent/internal/input/inject_darwin.go:321-331` | the pointer stays on the display, at least a point from its right and bottom edges; without a display it stays where it was |
| `InputDevice.CgInput.Move` | `host-agent/internal/input/inject_darwin.go:178-189` | a drag of the first button held, or a move, to where the position is on the display |
| `InputDevice.CgInput.Click` | `host-agent/internal/input/inject_darwin.go:191-216` | the button's state and event; nothing for another button |
| `InputDevice.CgInput.Wheel` | `host-agent/internal/input/inject_darwin.go:227-249` | the clamped deltas, or nothing |
| `InputDevice.Handler.Handle` | `host-agent/internal/input/handler.go:55-97` | the handler's new state, with list and set kept equal |
| `InputDevice.Handler.ForgetKey` | `host-agent/internal/input/handler.go:120-131` | the key is taken out of both |
| `InputDevice.Handler.ReleaseAll` | `host-agent/internal/input/handler.go:99-118` | keys in reverse order, then buttons, all up |
| `InputDevice.Handler.ApplyInput` | `host-agent/internal/session/inputgate.go:24-30` | released and dropped while a prompt is up, handled otherwise |
| `Inbox.SweepingIsHarmless` | `host-agent/internal/session/inbox.go:147-176` | with a clock that does not go back and no request stamped later than its first delivery, the swept memory handles what one that never forgets would |
| `Inbox.SweepingIsHarmlessIff` | `host-agent/internal/session/inbox.go:147-176` | with a clock that does not go back and one entry for each request, the swept memory handles what one that never forgets would if and only if no request comes, still usable, more than five minutes after an earlier delivery of it |
| `Inbox.FirstIsHandledIfFresh` | `host-agent/internal/session/inbox.go:147-165` | the first delivery of a request is handled exactly if it names a viewer and is at most five minutes old |
| `Inbox.AllAreRemoved` | `host-agent/internal/session/inbox.go:154-158` | every request delivered is taken out of the database, stale or malformed or not |
| `Inbox.RemovedBeforeHandled` | `host-agent/internal/session/inbox.go:154-164` | a request is handled only right after it was taken out |
| `Inbox.OnceIsOnce` | `host-agent/internal/session/inbox.go:147-165` | an inbox that never forgets handles each request at most once |
| `Inbox.MemoryIsRecent` | `host-agent/internal/session/inbox.go:167-176` | only requests dispatched within the last five minutes are remembered |
| `Inbox.ServerAheadHandlesTwice` | `host-agent/internal/session/inbox.go:159-164` | with a server clock ten minutes ahead, a replay is handled twice |
| `Inbox.RememberedOrOld` | `host-agent/internal/session/inbox.go:147-176` | a request is remembered since its first delivery, or that is more than five minutes ago |
| `Inbox.Inbox.Forget` | `host-agent/internal/session/inbox.go:167-176` | exactly the old entries are swept |
| `Inbox.Inbox.Dispatch` | `host-agent/internal/session/inbox.go:147-165` | the new memory and what is removed and handled |
| `Inbox.Inbox.HandleData` | `host-agent/internal/session/inbox.go:115-145` | each entry of an event dispatched |
| `Signaling.CandidatesAreFirsts` | `host-agent/internal/signaling/rtdb_transport.go:346-361` | the candidates passed on are the first valid one of each key, in order |
| `Signaling.KeysDiffer` | `host-agent/internal/signaling/rtdb_transport.go:350-356` | no key is passed on twice |
| `Signaling.DescriptionIsFirst` | `host-agent/internal/signaling/rtdb_transport.go:339-344` | the description passed on is the first valid one |
| `Signaling.SnapshotIsFirst` | `host-agent/internal/signaling/rtdb_transport.go:262-266` | the snapshot passed on is the first that names a party |
| `Signaling.StatusesAllPass` | `host-agent/internal/signaling/rtdb_transport.go:267-281` | every status reaches the buffer in order; gone is said once the node is |
| `Signaling.ReplaysAreAbsorbed` | `host-agent/internal/signaling/rtdb_transport.go:202-307` | events that say nothing new, whatever their form, add nothing to the three outputs |
| `Signaling.OldEventsAreReplays` | `host-agent/internal/signaling/rtdb_transport.go:202-307` | so any of the old events over again, in any order, add nothing |
| `Signaling.RolesMirror` | `host-agent/internal/signaling/rtdb_transport.go:84-110` | what one role publishes the other reads, and not what it publishes itself |
| `Signaling.OwnSideIsIgnored` | `host-agent/internal/signaling/rtdb_transport.go:252-307` | what comes at the paths a role publishes at says nothing to it |
| `Carried.OwnSideChangesNothing` | `host-agent/internal/signaling/rtdb_transport.go:226-321` | streams that differ only in the role's own description and candidates, at its own paths, among patched children or within the whole node, come to the same outputs |
| `Carried.FirstDescriptionPasses` | `host-agent/internal/signaling/rtdb_transport.go:252-321` | with none before, the whole description of the other side that an event carries is passed on, in each of its three forms |
| `Carried.DescriptionWasCarried` | `host-agent/internal/signaling/rtdb_transport.go:252-321` | a description is passed on exactly once one was carried, and it is one that was |
| `Carried.FirstCandidatePasses` | `host-agent/internal/signaling/rtdb_transport.go:252-321` | the same for a candidate with none of its key before |
| `Carried.CandidatesWereCarried` | `host-agent/internal/signaling/rtdb_transport.go:252-361` | a key is passed on exactly if some event carried a candidate with it, and then with such a one |
| `Carried.FirstSnapshotPasses` | `host-agent/internal/signaling/rtdb_transport.go:257-266` | the same for the node that names a party |
| `Carried.StatusesPass` | `host-agent/internal/signaling/rtdb_transport.go:267-281` | the statuses an event carries go to the buffer in order, and no others |
| `Carried.OnlyTheRootSaysGone` | `host-agent/internal/signaling/rtdb_transport.go:226-236` | the session is gone exactly if its root was missing, and a missing child says nothing |
| `Carried.RemovedChildrenSayNothing` | `host-agent/internal/signaling/rtdb_transport.go:238-247` | nor do children that a patch removes |
| `StatusBuffer.NewestIsKept` | `host-agent/internal/signaling/rtdb_transport.go:323-337` | whenever the reader reads, the buffer is a gapless suffix of the statuses sent, ending in the newest unless that was taken; none is dropped for want of room; none is read twice |
| `StatusBuffer.DroppedOnlyWhenFull` | `host-agent/internal/signaling/rtdb_transport.go:323-337` | a status goes straight into a buffer that holds fewer than sixteen, and one dropped is of the sixteen there were when the newest found no room |
| `Transport.RTDBTransport.Demux` | `host-agent/internal/signaling/rtdb_transport.go:226-250` | the outputs after one event |
| `Transport.RTDBTransport.Route` | `host-agent/internal/signaling/rtdb_transport.go:252-307` | the outputs after one path and its data |
| `Transport.RTDBTransport.EmitCandidate` | `host-agent/internal/signaling/rtdb_transport.go:346-361` | passed on once for its key |
| `Transport.RTDBTransport.EmitDescription` | `host-agent/internal/signaling/rtdb_transport.go:339-344` | passed on once |
| `Transport.RTDBTransport.EmitStatus` | `host-agent/internal/signaling/rtdb_transport.go:323-337` | the buffer after a status, the oldest dropped if full |
| `Transport.RTDBTransport.Consume` | `host-agent/internal/signaling/rtdb_transport.go:181-188` | the outputs after a whole stream |
| `SendPacing.NoLostWakeUp` | `host-agent/internal/transfer/send.go:228-255` | while the one sender waits with no token and no callback coming, the queue is above the low-water mark, and the drain past it wakes the sender |
| `SendPacing.QueueStaysBounded` | `host-agent/internal/transfer/send.go:12-18` | n senders put at most highWater - 1 + n chunks of file data in the queue |
| `SendPacing.TwoSendersCanStall` | `host-agent/internal/transfer/session.go:126-135` | two senders share one token: the second can wait beside an empty queue with nothing coming |
| `SendPacing.StreamFile` | `host-agent/internal/transfer/send.go:187-226` | completes only after exactly the first size bytes, always for an unchanged file, never for one that shrank, and for one that grew exactly when full reads end at its size; each chunk is sent only after its wait and its send worked out, and the first that does not interrupts it |

## Left out

- Destination.Dest.Create: names are compared byte for byte. Where the file system folds
  case, a name that differs only in case counts as taken too, and Create goes on to the
  next number.
- I420.BgraToI420: the planes' strides are those Convert passes, equal to their widths.
- Pipeline.ImagePool.TakeImage: the images themselves are names with a size; their pixels
  are in `Conversion`.
- Transport.RTDBTransport.EmitStatus: with no reader in between; `StatusBuffer` has the
  reader.
- Transport.RTDBTransport.EmitCandidate: the channel's capacity of 256, and candidates lost
  when the context ends while it is full, are not modelled.
- InputDevice.CgInput.Click: click counts are left out.
- InputDevice.CgInput.PostEvent: when permission to post is asked again is a parameter.
- InputEvents.EventsAnswer: for a main display that keeps its size; one that changes or goes
  away between two messages is in `InputEvents.PointIsPlace` alone.
- Input.LayersAgree: for one session's handler on an injector that starts with nothing
  held; two sessions at once are not modelled.
- Cursor.CursorPainter.Measure: the size and hotspot of a cursor are a function of its
  handle.
- CaptureLoop.Capture: reopening a source and the failing of the first open are not
  modelled beyond ending the loop.
- RoundTrip.RunBatch: for a batch nothing interrupts; cancelling, timeouts and a channel
  that closes end it early.
- Sessions.Session.HandleChunk: when a progress frame is due is a parameter.
- SafeNames.MakeSafe: upper case is that of ASCII, which decides the same, since no other
  code point has one of the reserved names' letters as its upper case.
- Dest.within, the second check that a path stays in the folder: a safe name has no
  separator (`SafeNames.SafeNameIsSound`).
- SweepPartials, the folder's creation on disk, and tagging a file as downloaded.
- The outbound slot (claimSend, cancelSend, offerPaths) and the viewer's download side.
- Parsing JSON, and everything of the network: Firebase, WebRTC, authentication, updates.
- The Windows injector, the key-code tables and the platform sources of pictures.
- libvpx itself, and the rate-control settings it is given.
- Timers, tickers and liveness: only safety is proved.
- Windows, dialogs and pages: what the operator answers is a choice.
