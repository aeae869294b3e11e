# To8BitPng conversion pipeline in Dafny

To8BitPng rewrites PNG files in place as 8-bit indexed-colour PNGs. It decodes each
file with System.Drawing, quantizes it with nQuant's Wu quantizer and saves the
result over the original. This project models the `ImageCompression` class of
`Program.cs`, which has three parts:

- `IsPng8BitColorDepth`: a header sniff. It seeks to offset 24 and reads two bytes
  into a zero-initialised buffer. It answers true only for bit depth 8 with colour
  type 3. Any exception counts as false. It is modelled as a pure function over a
  `Probe`: either the file's bytes or the exception that opening the file threw.
- `To8BitPngByFile`: the skip-or-convert decision, followed by the overwrite
  protocol. The protocol runs in a try/finally block: decode, quantize, dispose
  the bitmap, save over the file, and in `finally` dispose the quantized image.
  It is modelled as a method on a `Host` class. `Host` owns the file system (a map
  from path to bytes) and the imaging libraries (a `Codec` of functions that may
  fail). A ghost trace on `Host` records every library and file-system call, so
  that call order and disposal can be stated. The method is proved against the
  function `ConvertFile`.
- `To8BitPngByFolder`: a sequential `foreach` over the enumerated file list. It
  computes a `ParallelOptions` value and then ignores it. It is modelled as a
  method with a `while` loop, proved against `ConvertBatch`. `ConvertBatch` is
  `RunBatch` applied to the checked per-file conversion.

Module `Imaging` (imaging.dfy) holds the abstract machine and the library calls.
Module `ImageCompression` (image_compression.dfy) holds the three operations and
the functions that specify them. Module `ConversionProperties`
(conversion_properties.dfy) proves what those functions promise.

Two behaviours of the code are easy to misread, and the model follows the code:

- The comment on `To8BitPngByFile` (Program.cs:54) leaves exceptions to the caller,
  but the folder loop (Program.cs:46-49) catches nothing, so the first file that
  throws ends the whole run. The model aborts at the first failure
  (`Aborted(at, error)`).
- `maxDegreeOfParallelism` and the `ParallelOptions` value built from it
  (Program.cs:36-44) suggest parallel work, but the options object is never passed
  to anything and the loop is a plain sequential `foreach`. The result of
  `To8BitPngByFolder` does not depend on `maxDegreeOfParallelism`.
- When the quantizer throws, the bitmap is not disposed. Its `Dispose` call sits
  inside the try block, not in `finally`. The model records that bitmap as left
  undisposed.

## Model

| member | source | states |
|---|---|---|
| Imaging.ProbeOf | Program.cs:101 | Opening a file for reading succeeds exactly when the path exists and may be opened, and then yields that file's bytes; otherwise it throws. |
| Imaging.Load | Program.cs:75 | `new Bitmap(path)` yields an image only for a file that can be opened, and that image is the decoder's result on the file's bytes. |
| Imaging.SaveTo | Program.cs:81 | Saving to a path in the `denied` set fails before anything is written; otherwise the result is the encoder's. |
| Imaging.AfterSave | Program.cs:81 | A successful save replaces exactly the target file with the encoded bytes. A save that fails before writing changes nothing. No other path ever changes. |
| Imaging.Host.OpenHeader | Program.cs:101-106 | Opening and reading the header returns the probe of the current files and appends one `Inspected` call to the trace. |
| Imaging.Host.NewBitmap | Program.cs:75 | Constructing the bitmap returns `Load` of the current files and records whether it succeeded. |
| Imaging.Host.QuantizeImage | Program.cs:76 | Quantizing returns the quantizer's result and records whether it succeeded. |
| Imaging.Host.Dispose | Program.cs:79-86 | Disposing an image records which kind was released and changes nothing else. |
| Imaging.Host.Save | Program.cs:81 | The files become `AfterSave` of the save result, and the call and its success are recorded. |
| ImageCompression.ReadAt | Program.cs:103-106 | A read at a position delivers the bytes from that position up to the requested count or the end of the file, and nothing at or past the end. |
| ImageCompression.HeaderBuffer | Program.cs:103-109 | The two-byte buffer holds bytes 24 and 25 where the file has them, and 0 where the read fell short. |
| ImageCompression.IsPng8BitColorDepth | Program.cs:91-118 | True if and only if the file could be opened, has at least 26 bytes, byte 24 is 8 and byte 25 is 3. A file that throws on opening is false. |
| ImageCompression.ShortFileIsNotIndexed | Program.cs:103-111 | A file of 25 bytes or fewer leaves the colour-type slot at 0 and is never classified as 8-bit indexed. |
| ImageCompression.Recompress | Program.cs:70-88 | The try/finally block never skips, and its first call constructs the bitmap. When decoding or quantizing throws, the files are unchanged. |
| ImageCompression.ConvertFile | Program.cs:58-89 | A file is skipped if and only if the check is on and its header says 8-bit indexed; a skip changes no file and only reads the header. With the check on, the first call reads the header. |
| ImageCompression.CheckedConversion | Program.cs:48 | The folder loop calls `To8BitPngByFile` with the default `checkColorDepth = true`, so every conversion it runs begins by reading the header. |
| ImageCompression.To8BitPngByFile | Program.cs:58-89 | The outcome, the new files and the calls made, in order, are exactly those of `ConvertFile` on the old files. |
| ImageCompression.RunBatch | Program.cs:46-49 | A sequential batch never reports reaching more paths than it was given. |
| ImageCompression.RunBatchSnoc | Program.cs:46-49 | Extending a completed batch by one path runs that path from the files the batch left, and aborts at its index exactly when it fails. |
| ImageCompression.RunBatchAbortedPrefix | Program.cs:46-49 | Once a batch has aborted, the paths after the failing one change nothing. |
| ImageCompression.RunBatchStep | Program.cs:46-49 | One turn of the loop extends the batch over the first i paths by path i. If that path fails, the result is the whole batch's result. |
| ImageCompression.To8BitPngByFolder | Program.cs:36-50 | The status, the new files and the calls made are exactly those of `ConvertBatch` over the list in order. None of them depends on `maxDegreeOfParallelism`. |
| ConversionProperties.RecompressInspectsNothing | Program.cs:73-88 | The try/finally block never reads a header. |
| ConversionProperties.RecompressCounts | Program.cs:73-88 | The try/finally block leaves an image undisposed exactly when the quantizer threw, and that image is the bitmap. |
| ConversionProperties.HeaderCheckComesFirst | Program.cs:58-75 | With the check on, the first call reads the header. With it off, the first call constructs the bitmap and the file is never skipped, even if it is already 8-bit indexed. |
| ConversionProperties.InspectsOnlyWhenChecking | Program.cs:60-68 | A conversion reads its file's header exactly once with the check on and never with it off. |
| ConversionProperties.SkipIffAlreadyIndexed | Program.cs:60-67 | A file is skipped if and only if the check is on and its header says 8-bit indexed. A skipped file is only read, and no file changes. |
| ConversionProperties.ConvertedIff | Program.cs:70-81 | A conversion succeeds if and only if the file was not skipped, can be opened and decodes, quantizes and encodes. The file then holds encode(quantize(decode(old))). |
| ConversionProperties.FailureBeforeSaveKeepsFile | Program.cs:73-81 | Decoding fails exactly when the file cannot be opened or does not decode. Quantization fails exactly when the quantizer throws. Either way the files are unchanged. A failed save is reached only from a file that could be opened, and an encoder that throws before writing anything leaves the files unchanged too. |
| ConversionProperties.OnlyTargetChanges | Program.cs:58-89 | Whatever the outcome, no file other than the target is created, removed or changed. |
| ConversionProperties.DisposeOrder | Program.cs:71-87 | Once the quantized image exists, its disposal is the last call made. The bitmap is disposed before any save. |
| ConversionProperties.LeaksOnlyOnQuantizerFailure | Program.cs:71-88 | A conversion leaves an image undisposed exactly when quantization threw, and that image is the bitmap. |
| ConversionProperties.ConvertedIsSkippedNextTime | Program.cs:60-81 | If the encoder writes the quantizer's output as an 8-bit indexed PNG, a converted file is skipped by the next checked run and left unchanged. |
| ConversionProperties.RunBatchVisitsInOrder | Program.cs:46-49 | If each step reads exactly its own path's header, a batch reads headers in list order, up to and including the failing path. |
| ConversionProperties.BatchVisitsInOrder | Program.cs:38-49 | The folder loop reads the files' headers in enumeration order, one each, and none after the first file that throws. |
| ConversionProperties.RunBatchLeavesUnvisitedUnchanged | Program.cs:46-49 | If each step changes only its own path, a batch leaves every path it did not reach unchanged. |
| ConversionProperties.BatchLeavesUnvisitedUnchanged | Program.cs:38-49 | Files after the first failure, and files not in the list, are unchanged by the folder loop. |
| ConversionProperties.BatchAbortsAtFirstFailure | Program.cs:46-49 | A batch that aborts at index k completed the first k paths. The path at k threw that error, and the batch's files and calls end with that path's. |
| ConversionProperties.RunBatchCons | Program.cs:46-49 | When the first path succeeds, the batch's undisposed images are the first path's plus the rest's, and it aborts exactly when the rest does. |
| ConversionProperties.RunBatchLeaks | Program.cs:46-49 | If each step leaks only the bitmap of a failed quantization, a batch leaks nothing when it completes, and otherwise only that of the aborting path. |
| ConversionProperties.BatchLeaksAtMostOneBitmap | Program.cs:38-49 | A folder run leaves at most one image undisposed: the bitmap of the file whose quantization threw and ended the run. |
| ConversionProperties.IndexedAfterSuccess | Program.cs:58-89 | If the encoder writes the quantizer's output as an 8-bit indexed PNG, a file that a checked conversion skipped or converted is 8-bit indexed afterwards. |
| ConversionProperties.CompletedBatchLeavesAllIndexed | Program.cs:38-49 | If the encoder writes the quantizer's output as an 8-bit indexed PNG, every file of a completed folder run is 8-bit indexed afterwards. |
| ConversionProperties.IndexedBatchIsSkipped | Program.cs:38-67 | A folder run over files that are all 8-bit indexed completes, changes nothing and only reads each header, in order. |
| ConversionProperties.CompletedBatchIsSkippedNextTime | Program.cs:38-67 | Running the folder conversion again after a completed run changes nothing and only reads each header. |

## Left out

- `Main`, `Arguments` and the command-line parser (Program.cs:13-25, 121-128) are not modelled. They only select which of the two entry points to call.
- Decoding, quantizing and encoding are library code (System.Drawing and nQuant). They are the `Codec` functions `decode`, `quantize` and `encode`, which may fail. Their internals are not modelled. `ConvertedIsSkippedNextTime` and the batch convergence lemmas assume, through `EncodesQuantizedAsIndexed8`, that when the encoder writes an image the quantizer produced, the PNG carries bit depth 8 and colour type 3. Nothing is assumed about how other images are encoded.
- `Directory.GetFiles(folderPath, "*.png")` is not modelled. Its wildcard matching and enumeration order are file-system behaviour, so the folder method takes the enumerated list as `folderFiles`.
- `ParallelOptions` is built and never used, so no concurrency exists to model. Its value is kept only to show that nothing reads it.
- I/O faults are reduced to a missing file and a `denied` set of paths that can be neither opened nor written. A file that can be read but not written (read-only) appears only as an encoder that fails before writing (`SaveFailed(None)`); since a denied path already fails at `new Bitmap`, the denied branch of `SaveTo` is never reached by the pipeline. Other exceptions (sharing violations, a full disk, a file changing between the header read and the decode) are not modelled.
- `Stream.Read` may return fewer bytes than are available. The model reads everything available up to the requested count. This is what a local `FileStream` does.
- Image objects are not modelled as heap objects. Their creation and disposal appear only as trace events, and undisposed images are counted from the trace. Finalizers are not modelled.
- A save that fails partway may leave part of the new content in the file (`SaveFailed(Some(partial))`). What is left is the `Codec`'s choice, and the model does not constrain it.
- `NoImagesIsNeutral`, `Zeroes`, `Min`, `AppendAssoc` and the trace-counting helpers (`Inspections`, `InspectionsAppend`, `OutstandingAppend`, `InspectionsCons`, `OutstandingCons`, `NoInspections`, `FiveCalls`, `ReleasedBeforeSaveCons`, `QuantizedReleasedCons`, `RecompressReleasesBitmapFirst`, `RecompressReleasesQuantizedLast`, `InspectionLeavesCounts`, `DecodeFailureTraceCounts`, `QuantizeFailureTraceCounts`, `SaveTraceCounts`) are proof helpers. They have no row because they model no source line of their own.
