/** The conversion pipeline of To8BitPng: a cheap header check, the per-file
    skip-or-convert decision with its overwrite-and-dispose protocol, and the folder loop.
    Each method is proved against a specification function of the old state;
    ConversionProperties proves what those functions promise. */
module ImageCompression {
  import opened Imaging

  // Header sniff

  const ColorTypeBits8: byte := 3
  const ColorDepth8: byte := 8
  const StartReadPosition: nat := 24
  const ColorDepthPositionOffset: nat := 0
  const ColorTypePositionOffset: nat := 1
  const BufferLength: nat := 2

  function Zeroes(n: nat): (z: Bytes)
    ensures |z| == n && forall k :: 0 <= k < n ==> z[k] == 0
  {
    seq(n, _ => 0)
  }

  /** What a read of up to `count` bytes at `position` delivers from a file: everything
      up to the end, and nothing once the position is at or past the end. */
  function ReadAt(file: Bytes, position: nat, count: nat): (got: Bytes)
    ensures |got| == if position < |file| then Min(count, |file| - position) else 0
    ensures forall k :: 0 <= k < |got| ==> got[k] == file[position + k]
  {
    if position < |file| then file[position .. position + Min(count, |file| - position)] else []
  }

  function Min(a: nat, b: nat): nat
  {
    if a < b then a else b
  }

  /** The two-byte buffer after `fs.Position = 24` and `fs.Read(buffer, 0, 2)`: the slots
      the read does not reach keep the zero the array was created with. */
  function HeaderBuffer(file: Bytes): (buffer: Bytes)
    ensures |buffer| == BufferLength
    ensures forall k :: 0 <= k < BufferLength ==>
      buffer[k] == if StartReadPosition + k < |file| then file[StartReadPosition + k] else 0
  {
    var got := ReadAt(file, StartReadPosition, BufferLength);
    got + Zeroes(BufferLength - |got|)
  }

  /** True iff the file's IHDR bit depth (byte 24) is 8 and its colour type (byte 25) is 3,
      indexed colour; a file that cannot be opened or read is never classified true. */
  function IsPng8BitColorDepth(probe: Probe): (r: bool)
    ensures r <==> probe.Opened? && |probe.bytes| >= 26 && probe.bytes[24] == 8 && probe.bytes[25] == 3
  {
    match probe
    case Threw(_) => false
    case Opened(bytes) =>
      var buffer := HeaderBuffer(bytes);
      buffer[ColorDepthPositionOffset] == ColorDepth8 && buffer[ColorTypePositionOffset] == ColorTypeBits8
  }

  /** A file too short to reach byte 25 leaves the colour-type slot at its initial zero,
      so it is never classified as 8-bit indexed. */
  lemma ShortFileIsNotIndexed(file: Bytes)
    requires |file| <= StartReadPosition + ColorTypePositionOffset
    ensures HeaderBuffer(file)[ColorTypePositionOffset] == 0
    ensures !IsPng8BitColorDepth(Opened(file))
  {
  }

  // One file

  /** The failure that escapes `To8BitPngByFile`, by the step that threw. */
  datatype ConversionError = DecodeError | QuantizationError | EncodeOrWriteError

  /** How a call of `To8BitPngByFile` ends: an early return, a normal return after the
      save, or an exception. */
  datatype Outcome = Skipped | Converted | Failed(error: ConversionError)

  /** One conversion: its outcome, the files afterwards and the calls it made, in order. */
  datatype FileRun = FileRun(outcome: Outcome, files: map<Path, Bytes>, events: seq<Event>)

  /** The PNG the library pipeline makes of a file's bytes, when no step fails. */
  function PipelineOutput(codec: Codec, bytes: Bytes): Option<Bytes>
  {
    match codec.decode(bytes)
    case None => None
    case Some(bitmap) =>
      match codec.quantize(bitmap)
      case None => None
      case Some(quantized) =>
        match codec.encode(quantized)
        case Written(out) => Some(out)
        case SaveFailed(_) => None
  }

  /** `m` and `n` hold the same files everywhere except possibly at the paths in `touched`. */
  ghost predicate AgreeOutside(m: map<Path, Bytes>, n: map<Path, Bytes>, touched: seq<Path>)
  {
    forall p :: p !in touched ==> (p in m <==> p in n) && (p in m ==> m[p] == n[p])
  }

  /** Once the quantized image exists, the last thing the conversion does is dispose it. */
  ghost predicate QuantizedReleased(events: seq<Event>)
  {
    Quantized(true) in events ==> |events| > 0 && events[|events| - 1] == Disposed(QuantizedImage)
  }

  /** The bitmap holding the file open is disposed before anything is saved. */
  ghost predicate BitmapReleasedBeforeSave(events: seq<Event>)
  {
    forall i :: 0 <= i < |events| && events[i].Saved? ==> Disposed(BitmapImage) in events[..i]
  }

  /** What the try/finally block of `To8BitPngByFile` does to a machine with `files`:
      decode, quantize, dispose the bitmap, save over the file, dispose the quantized image. */
  function Recompress(codec: Codec, files: map<Path, Bytes>, denied: set<Path>, path: Path): (r: FileRun)
    ensures r.outcome != Skipped
    ensures |r.events| > 0 && r.events[0] == Decoded(path, Load(codec, files, denied, path).Some?)
    ensures r.outcome.Failed? && r.outcome.error != EncodeOrWriteError ==> r.files == files
  {
    match Load(codec, files, denied, path)
    case None =>
      FileRun(Failed(DecodeError), files, [Decoded(path, false)])
    case Some(bitmap) =>
      match codec.quantize(bitmap)
      case None =>
        FileRun(Failed(QuantizationError), files, [Decoded(path, true), Quantized(false)])
      case Some(quantized) =>
        var saved := SaveTo(codec, denied, path, quantized);
        FileRun(if saved.Written? then Converted else Failed(EncodeOrWriteError),
                AfterSave(files, path, saved),
                [Decoded(path, true), Quantized(true), Disposed(BitmapImage), Saved(path, saved.Written?), Disposed(QuantizedImage)])
  }

  /** What `To8BitPngByFile(path, checkColorDepth)` does to a machine with `files`. */
  function ConvertFile(codec: Codec, files: map<Path, Bytes>, denied: set<Path>, path: Path, checkColorDepth: bool): (r: FileRun)
    ensures r.outcome == Skipped <==> checkColorDepth && IsPng8BitColorDepth(ProbeOf(files, denied, path))
    ensures r.outcome == Skipped ==> r.files == files && r.events == [Inspected(path)]
    ensures |r.events| > 0 && (checkColorDepth ==> r.events[0] == Inspected(path))
  {
    if !checkColorDepth then Recompress(codec, files, denied, path)
    else if IsPng8BitColorDepth(ProbeOf(files, denied, path)) then FileRun(Skipped, files, [Inspected(path)])
    else
      var r := Recompress(codec, files, denied, path);
      r.(events := [Inspected(path)] + r.events)
  }

  /** Converts the PNG at `filePath` to 8-bit indexed colour in place; with
      `checkColorDepth` a file whose header already says so is left alone. Failures of
      the decoder, quantizer or encoder escape to the caller as `Failed`. */
  method To8BitPngByFile(host: Host, filePath: Path, checkColorDepth: bool) returns (outcome: Outcome)
    modifies host`files, host`trace
    ensures var r := ConvertFile(host.codec, old(host.files), host.denied, filePath, checkColorDepth);
      outcome == r.outcome && host.files == r.files && host.trace == old(host.trace) + r.events
  {
    if checkColorDepth {
      var probe := host.OpenHeader(filePath);
      if IsPng8BitColorDepth(probe) {
        // already 8-bit indexed: nothing to convert
        return Skipped;
      }
    }

    var quantized: Option<Raster> := None;
    var error: Option<ConversionError> := None;

    // try
    var bitmap := host.NewBitmap(filePath);
    if bitmap.None? {
      error := Some(DecodeError);
    } else {
      quantized := host.QuantizeImage(bitmap.value);
      if quantized.None? {
        error := Some(QuantizationError);
      } else {
        // release the bitmap, which holds the file open, before overwriting it
        host.Dispose(BitmapImage);
        var ok := host.Save(quantized.value, filePath);
        if !ok {
          error := Some(EncodeOrWriteError);
        }
      }
    }

    // finally
    if quantized.Some? {
      host.Dispose(QuantizedImage);
    }

    outcome := if error.Some? then Failed(error.value) else Converted;
  }

  lemma AppendAssoc<T>(a: seq<T>, b: seq<T>, c: seq<T>)
    ensures (a + b) + c == a + (b + c)
  {
  }

  // A folder

  /** How `To8BitPngByFolder` ends: normally, or with the exception of the file at index `at`. */
  datatype BatchStatus = Completed | Aborted(at: nat, error: ConversionError)

  datatype BatchRun = BatchRun(status: BatchStatus, files: map<Path, Bytes>, events: seq<Event>)

  /** The number of paths a batch over `count` paths reached: all of them, or up to and
      including the one that threw. */
  function Visited(status: BatchStatus, count: nat): nat
  {
    if status.Aborted? then status.at + 1 else count
  }

  /** A conversion of one path from a given state of the files. */
  type Step = (map<Path, Bytes>, Path) -> FileRun

  /** The conversion the folder loop runs on each path: header check on. */
  function CheckedConversion(codec: Codec, denied: set<Path>): (step: Step)
    ensures forall files, path :: |step(files, path).events| > 0 && step(files, path).events[0] == Inspected(path)
  {
    (files, path) => ConvertFile(codec, files, denied, path, true)
  }

  /** Running `step` on `paths` one after the other, each from the files the previous one
      left: the first failure ends the batch. */
  function RunBatch(step: Step, files: map<Path, Bytes>, paths: seq<Path>): (b: BatchRun)
    ensures Visited(b.status, |paths|) <= |paths|
    decreases |paths|
  {
    if paths == [] then BatchRun(Completed, files, [])
    else
      var r := step(files, paths[0]);
      if r.outcome.Failed? then BatchRun(Aborted(0, r.outcome.error), r.files, r.events)
      else
        var rest := RunBatch(step, r.files, paths[1..]);
        var status := if rest.status.Aborted? then Aborted(rest.status.at + 1, rest.status.error) else Completed;
        BatchRun(status, rest.files, r.events + rest.events)
  }

  /** What `To8BitPngByFolder` does with the files `paths` to a machine with `files`. */
  function ConvertBatch(codec: Codec, files: map<Path, Bytes>, denied: set<Path>, paths: seq<Path>): BatchRun
  {
    RunBatch(CheckedConversion(codec, denied), files, paths)
  }

  /** Extending a completed batch by one path runs that path's conversion from where the
      batch left the files. */
  lemma {:induction false} RunBatchSnoc(step: Step, files: map<Path, Bytes>, paths: seq<Path>, p: Path)
    requires RunBatch(step, files, paths).status == Completed
    ensures var pre := RunBatch(step, files, paths);
      var r := step(pre.files, p);
      RunBatch(step, files, paths + [p]) ==
        BatchRun(if r.outcome.Failed? then Aborted(|paths|, r.outcome.error) else Completed,
                 r.files, pre.events + r.events)
    decreases |paths|
  {
    if paths == [] {
      assert paths + [p] == [p];
    } else {
      var first := step(files, paths[0]);
      assert (paths + [p])[0] == paths[0];
      assert (paths + [p])[1..] == paths[1..] + [p];
      RunBatchSnoc(step, first.files, paths[1..], p);
      var pre := RunBatch(step, first.files, paths[1..]);
      var r := step(pre.files, p);
      assert first.events + (pre.events + r.events) == (first.events + pre.events) + r.events;
    }
  }

  /** Paths after the one that aborted a batch make no difference. */
  lemma {:induction false} RunBatchAbortedPrefix(step: Step, files: map<Path, Bytes>, paths: seq<Path>, more: seq<Path>)
    requires RunBatch(step, files, paths).status.Aborted?
    ensures RunBatch(step, files, paths + more) == RunBatch(step, files, paths)
    decreases |paths|
  {
    assert paths != [];
    assert (paths + more)[0] == paths[0];
    assert (paths + more)[1..] == paths[1..] + more;
    var first := step(files, paths[0]);
    if !first.outcome.Failed? {
      RunBatchAbortedPrefix(step, first.files, paths[1..], more);
    }
  }

  /** One more turn of the folder loop: the batch over the first `i + 1` paths is the
      batch over the first `i` followed by path `i`, and if that one throws, the batch
      over all of `paths` ends there. */
  lemma RunBatchStep(step: Step, files: map<Path, Bytes>, paths: seq<Path>, i: nat)
    requires i < |paths| && RunBatch(step, files, paths[..i]).status == Completed
    ensures var pre := RunBatch(step, files, paths[..i]);
      var r := step(pre.files, paths[i]);
      var next := RunBatch(step, files, paths[..i + 1]);
      next == BatchRun(if r.outcome.Failed? then Aborted(i, r.outcome.error) else Completed, r.files, pre.events + r.events) &&
      (r.outcome.Failed? ==> RunBatch(step, files, paths) == next)
  {
    RunBatchSnoc(step, files, paths[..i], paths[i]);
    assert paths[..i] + [paths[i]] == paths[..i + 1];
    var pre := RunBatch(step, files, paths[..i]);
    if step(pre.files, paths[i]).outcome.Failed? {
      RunBatchAbortedPrefix(step, files, paths[..i + 1], paths[i + 1..]);
      assert paths[..i + 1] + paths[i + 1..] == paths;
    }
  }

  /** The .NET options object the folder driver fills in; -1 means no limit. */
  datatype ParallelOptions = ParallelOptions(maxDegreeOfParallelism: int)

  /** Converts every PNG of a folder, given as the list `folderFiles` that enumerating it
      returned, one after the other in that order. The first exception ends the run. The
      parallelism setting is computed and never used: the result does not depend on it. */
  method To8BitPngByFolder(host: Host, folderFiles: seq<Path>, maxDegreeOfParallelism: int) returns (status: BatchStatus)
    modifies host`files, host`trace
    ensures var b := ConvertBatch(host.codec, old(host.files), host.denied, folderFiles);
      status == b.status && host.files == b.files &&
      host.trace == old(host.trace) + b.events
  {
    var options := ParallelOptions(-1);
    if maxDegreeOfParallelism > 0 {
      options := options.(maxDegreeOfParallelism := maxDegreeOfParallelism);
    }

    ghost var step := CheckedConversion(host.codec, host.denied);
    var i := 0;
    while i < |folderFiles|
      invariant 0 <= i <= |folderFiles|
      invariant var pre := RunBatch(step, old(host.files), folderFiles[..i]);
        pre.status == Completed && host.files == pre.files &&
        host.trace == old(host.trace) + pre.events
    {
      ghost var pre := RunBatch(step, old(host.files), folderFiles[..i]);
      ghost var r := step(host.files, folderFiles[i]);
      RunBatchStep(step, old(host.files), folderFiles, i);
      var outcome := To8BitPngByFile(host, folderFiles[i], true);
      assert outcome == r.outcome && host.files == r.files;
      AppendAssoc(old(host.trace), pre.events, r.events);
      if outcome.Failed? {
        return Aborted(i, outcome.error);
      }
      i := i + 1;
    }
    assert folderFiles[..i] == folderFiles;
    status := Completed;
  }
}
