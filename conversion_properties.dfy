/** What the conversion pipeline promises, proved about the specification functions
    that To8BitPngByFile and To8BitPngByFolder are verified against. */
module ConversionProperties {
  import opened Imaging
  import opened ImageCompression

  // Counting over call traces

  /** The paths whose headers a sequence of calls inspected, in order. */
  function Inspections(events: seq<Event>): seq<Path>
  {
    if events == [] then []
    else (if events[0].Inspected? then [events[0].path] else []) + Inspections(events[1..])
  }

  lemma {:induction false} InspectionsAppend(a: seq<Event>, b: seq<Event>)
    ensures Inspections(a + b) == Inspections(a) + Inspections(b)
    decreases |a|
  {
    if a == [] {
      assert a + b == b;
    } else {
      assert (a + b)[1..] == a[1..] + b;
      InspectionsAppend(a[1..], b);
    }
  }

  lemma {:induction false} OutstandingAppend(a: seq<Event>, b: seq<Event>)
    ensures Outstanding(a + b) == Outstanding(a).Plus(Outstanding(b))
    decreases |a|
  {
    if a == [] {
      assert a + b == b;
    } else {
      assert (a + b)[1..] == a[1..] + b;
      OutstandingAppend(a[1..], b);
    }
  }

  lemma {:induction false} InspectionsCons(e: Event, rest: seq<Event>)
    ensures Inspections([e] + rest) == (if e.Inspected? then [e.path] else []) + Inspections(rest)
  {
  }

  // One file

  lemma {:induction false} NoInspections(events: seq<Event>)
    requires forall i :: 0 <= i < |events| ==> !events[i].Inspected?
    ensures Inspections(events) == []
    decreases |events|
  {
    if events != [] {
      NoInspections(events[1..]);
    }
  }

  lemma {:induction false} OutstandingCons(e: Event, rest: seq<Event>)
    ensures Outstanding([e] + rest) == Effect(e).Plus(Outstanding(rest))
  {
    assert ([e] + rest)[1..] == rest;
  }

  lemma FiveCalls(e0: Event, e1: Event, e2: Event, e3: Event, e4: Event)
    ensures [e0, e1, e2, e3, e4] == [e0] + ([e1] + ([e2] + ([e3] + [e4])))
  {
  }

  /** A converted file's trace: every image created is disposed again. */
  lemma {:induction false} SaveTraceCounts(path: Path, ok: bool)
    ensures Outstanding([Decoded(path, true), Quantized(true), Disposed(BitmapImage), Saved(path, ok), Disposed(QuantizedImage)]) == NoImages
  {
    var e0, e1, e2, e3, e4 := Decoded(path, true), Quantized(true), Disposed(BitmapImage), Saved(path, ok), Disposed(QuantizedImage);
    FiveCalls(e0, e1, e2, e3, e4);
    OutstandingCons(e4, []);
    assert [e4] + [] == [e4];
    OutstandingCons(e3, [e4]);
    OutstandingCons(e2, [e3] + [e4]);
    OutstandingCons(e1, [e2] + ([e3] + [e4]));
    OutstandingCons(e0, [e1] + ([e2] + ([e3] + [e4])));
  }

  /** The try/finally block never inspects a header. */
  lemma RecompressInspectsNothing(codec: Codec, files: map<Path, Bytes>, denied: set<Path>, path: Path)
    ensures Inspections(Recompress(codec, files, denied, path).events) == []
  {
    NoInspections(Recompress(codec, files, denied, path).events);
  }

  /** A file that does not decode leaves no image behind. */
  lemma DecodeFailureTraceCounts(path: Path)
    ensures Outstanding([Decoded(path, false)]) == NoImages
  {
  }

  /** A file whose quantization throws leaves its bitmap behind. */
  lemma QuantizeFailureTraceCounts(path: Path)
    ensures Outstanding([Decoded(path, true), Quantized(false)]) == Census(1, 0)
  {
    var es := [Decoded(path, true), Quantized(false)];
    assert es[1..][1..] == [];
    assert Outstanding(es[1..]) == NoImages;
  }

  /** Of the images the try/finally block creates, it leaves only the bitmap undisposed,
      and only when the quantizer threw. */
  lemma {:induction false} RecompressCounts(codec: Codec, files: map<Path, Bytes>, denied: set<Path>, path: Path)
    ensures var r := Recompress(codec, files, denied, path);
      Outstanding(r.events) == if r.outcome == Failed(QuantizationError) then Census(1, 0) else NoImages
  {
    match Load(codec, files, denied, path)
    case None =>
      DecodeFailureTraceCounts(path);
    case Some(bitmap) =>
      if codec.quantize(bitmap).None? {
        QuantizeFailureTraceCounts(path);
      } else {
        var saved := SaveTo(codec, denied, path, codec.quantize(bitmap).value);
        SaveTraceCounts(path, saved.Written?);
      }
  }

  /** With the check on, the header is inspected first; with it off, the bitmap is
      always constructed and the file is never skipped. */
  lemma HeaderCheckComesFirst(codec: Codec, files: map<Path, Bytes>, denied: set<Path>, path: Path, checkColorDepth: bool)
    ensures var r := ConvertFile(codec, files, denied, path, checkColorDepth);
      |r.events| > 0 &&
      (checkColorDepth ==> r.events[0] == Inspected(path)) &&
      (!checkColorDepth ==> r.events[0] == Decoded(path, Load(codec, files, denied, path).Some?) && r.outcome != Skipped)
  {
  }

  /** The header of the converted file is inspected once with the check on, never with
      it off. */
  lemma {:induction false} InspectsOnlyWhenChecking(codec: Codec, files: map<Path, Bytes>, denied: set<Path>, path: Path, checkColorDepth: bool)
    ensures Inspections(ConvertFile(codec, files, denied, path, checkColorDepth).events) ==
      if checkColorDepth then [path] else []
  {
    var r := ConvertFile(codec, files, denied, path, checkColorDepth);
    var inner := Recompress(codec, files, denied, path);
    RecompressInspectsNothing(codec, files, denied, path);
    if !checkColorDepth {
      assert r == inner;
    } else if IsPng8BitColorDepth(ProbeOf(files, denied, path)) {
      InspectionsCons(Inspected(path), []);
      assert [Inspected(path)] + [] == r.events;
    } else {
      assert r.events == [Inspected(path)] + inner.events;
      InspectionsCons(Inspected(path), inner.events);
    }
  }

  /** A file is skipped exactly when the check is on and its header already says 8-bit
      indexed; a skipped file is only looked at. */
  lemma SkipIffAlreadyIndexed(codec: Codec, files: map<Path, Bytes>, denied: set<Path>, path: Path, checkColorDepth: bool)
    ensures var r := ConvertFile(codec, files, denied, path, checkColorDepth);
      (r.outcome == Skipped <==> checkColorDepth && IsPng8BitColorDepth(ProbeOf(files, denied, path))) &&
      (r.outcome == Skipped ==> r.files == files && r.events == [Inspected(path)])
  {
  }

  /** A file is converted exactly when it is not skipped, can be opened, and every library
      step succeeds on its bytes; it then holds the re-encoded image. */
  lemma ConvertedIff(codec: Codec, files: map<Path, Bytes>, denied: set<Path>, path: Path, checkColorDepth: bool)
    ensures var r := ConvertFile(codec, files, denied, path, checkColorDepth);
      (r.outcome == Converted <==>
        !(checkColorDepth && IsPng8BitColorDepth(ProbeOf(files, denied, path))) &&
        path in files && path !in denied && PipelineOutput(codec, files[path]).Some?) &&
      (r.outcome == Converted ==> r.files == files[path := PipelineOutput(codec, files[path]).value])
  {
  }

  /** Which step threw: decoding fails exactly on a file that cannot be opened or does not
      decode, quantization exactly when the quantizer throws on the decoded bitmap. Both
      happen before the save, so the file is left as it was. A failed save is only
      reached from a file that could be opened, and an encoder that throws before
      writing anything leaves the file as well. */
  lemma FailureBeforeSaveKeepsFile(codec: Codec, files: map<Path, Bytes>, denied: set<Path>, path: Path, checkColorDepth: bool)
    ensures var r := ConvertFile(codec, files, denied, path, checkColorDepth);
      var skipped := checkColorDepth && IsPng8BitColorDepth(ProbeOf(files, denied, path));
      (r.outcome == Failed(DecodeError) <==> !skipped && Load(codec, files, denied, path).None?) &&
      (r.outcome == Failed(QuantizationError) <==>
        !skipped && Load(codec, files, denied, path).Some? && codec.quantize(Load(codec, files, denied, path).value).None?) &&
      (r.outcome in {Failed(DecodeError), Failed(QuantizationError)} ==> r.files == files) &&
      (r.outcome == Failed(EncodeOrWriteError) ==>
        path !in denied &&
        (codec.encode(codec.quantize(Load(codec, files, denied, path).value).value) == SaveFailed(None) ==>
          r.files == files))
  {
  }

  /** Whatever happens, no file other than the one converted is created, removed or changed. */
  lemma OnlyTargetChanges(codec: Codec, files: map<Path, Bytes>, denied: set<Path>, path: Path, checkColorDepth: bool)
    ensures AgreeOutside(ConvertFile(codec, files, denied, path, checkColorDepth).files, files, [path])
  {
  }

  /** Calls made before a trace that releases the bitmap before saving keep that order,
      as long as they do not save. */
  lemma {:induction false} ReleasedBeforeSaveCons(e: Event, rest: seq<Event>)
    requires !e.Saved? && BitmapReleasedBeforeSave(rest)
    ensures BitmapReleasedBeforeSave([e] + rest)
  {
    var es := [e] + rest;
    forall i | 0 <= i < |es| && es[i].Saved?
      ensures Disposed(BitmapImage) in es[..i]
    {
      assert es[i] == rest[i - 1];
      assert Disposed(BitmapImage) in rest[..i - 1];
      assert es[..i] == [e] + rest[..i - 1];
    }
  }

  lemma {:induction false} RecompressReleasesBitmapFirst(codec: Codec, files: map<Path, Bytes>, denied: set<Path>, path: Path)
    ensures BitmapReleasedBeforeSave(Recompress(codec, files, denied, path).events)
  {
    var es := Recompress(codec, files, denied, path).events;
    if |es| == 5 {
      assert es[..3][2] == Disposed(BitmapImage);
      assert es[..4][2] == Disposed(BitmapImage);
    }
  }

  lemma {:induction false} QuantizedReleasedCons(e: Event, rest: seq<Event>)
    requires e != Quantized(true) && QuantizedReleased(rest)
    ensures QuantizedReleased([e] + rest)
  {
  }

  lemma {:induction false} RecompressReleasesQuantizedLast(codec: Codec, files: map<Path, Bytes>, denied: set<Path>, path: Path)
    ensures QuantizedReleased(Recompress(codec, files, denied, path).events)
  {
  }

  /** The quantized image, once created, is disposed as the very last call, and the
      bitmap is disposed before the save. */
  lemma {:induction false} DisposeOrder(codec: Codec, files: map<Path, Bytes>, denied: set<Path>, path: Path, checkColorDepth: bool)
    ensures var r := ConvertFile(codec, files, denied, path, checkColorDepth);
      QuantizedReleased(r.events) && BitmapReleasedBeforeSave(r.events)
  {
    RecompressReleasesBitmapFirst(codec, files, denied, path);
    RecompressReleasesQuantizedLast(codec, files, denied, path);
    if checkColorDepth {
      var rest := if IsPng8BitColorDepth(ProbeOf(files, denied, path)) then [] else Recompress(codec, files, denied, path).events;
      ReleasedBeforeSaveCons(Inspected(path), rest);
      QuantizedReleasedCons(Inspected(path), rest);
      assert [Inspected(path)] + [] == [Inspected(path)];
    }
  }

  lemma {:induction false} InspectionLeavesCounts(path: Path, rest: seq<Event>)
    ensures Outstanding([Inspected(path)] + rest) == Outstanding(rest)
  {
  }

  /** The only image a conversion can leave undisposed is the bitmap of a file whose
      quantization threw. */
  lemma {:induction false} LeaksOnlyOnQuantizerFailure(codec: Codec, files: map<Path, Bytes>, denied: set<Path>, path: Path, checkColorDepth: bool)
    ensures var r := ConvertFile(codec, files, denied, path, checkColorDepth);
      Outstanding(r.events) == if r.outcome == Failed(QuantizationError) then Census(1, 0) else NoImages
  {
    var r := ConvertFile(codec, files, denied, path, checkColorDepth);
    var inner := Recompress(codec, files, denied, path);
    RecompressCounts(codec, files, denied, path);
    if !checkColorDepth {
      assert r == inner;
    } else if IsPng8BitColorDepth(ProbeOf(files, denied, path)) {
      assert r.events == [Inspected(path)] + [];
      InspectionLeavesCounts(path, []);
    } else {
      assert r.events == [Inspected(path)] + inner.events && r.outcome == inner.outcome;
      InspectionLeavesCounts(path, inner.events);
    }
  }

  /** What WuQuantizer hands to `Image.Save` is an 8-bit palette image, which the PNG
      encoder stores with bit depth 8 and colour type 3. Only the quantizer's output is
      constrained: a truecolour image may well be encoded with another colour type. */
  ghost predicate EncodesQuantizedAsIndexed8(codec: Codec)
  {
    forall bitmap, quantized ::
      codec.quantize(bitmap) == Some(quantized) && codec.encode(quantized).Written? ==>
        IsPng8BitColorDepth(Opened(codec.encode(quantized).bytes))
  }

  /** Converting is idempotent: once a file has been converted, the next checked run
      only looks at its header and leaves it alone. */
  lemma ConvertedIsSkippedNextTime(codec: Codec, files: map<Path, Bytes>, denied: set<Path>, path: Path, checkColorDepth: bool)
    requires EncodesQuantizedAsIndexed8(codec)
    requires ConvertFile(codec, files, denied, path, checkColorDepth).outcome == Converted
    ensures var after := ConvertFile(codec, files, denied, path, checkColorDepth).files;
      ConvertFile(codec, after, denied, path, true) == FileRun(Skipped, after, [Inspected(path)])
  {
  }

  // A folder

  /** Every run of `step` inspects exactly the header of the path it is given. */
  ghost predicate InspectsItsPath(step: Step)
  {
    forall files, path :: Inspections(step(files, path).events) == [path]
  }

  lemma {:induction false} RunBatchVisitsInOrder(step: Step, files: map<Path, Bytes>, paths: seq<Path>)
    requires InspectsItsPath(step)
    ensures var b := RunBatch(step, files, paths);
      Inspections(b.events) == paths[..Visited(b.status, |paths|)]
    decreases |paths|
  {
    if paths != [] {
      var b := RunBatch(step, files, paths);
      var r := step(files, paths[0]);
      assert Inspections(r.events) == [paths[0]];
      if r.outcome.Failed? {
        assert paths[..1] == [paths[0]];
      } else {
        var rest := RunBatch(step, r.files, paths[1..]);
        var n := Visited(rest.status, |paths| - 1);
        RunBatchVisitsInOrder(step, r.files, paths[1..]);
        InspectionsAppend(r.events, rest.events);
        assert b.events == r.events + rest.events;
        assert Visited(b.status, |paths|) == n + 1;
        assert paths[..n + 1] == [paths[0]] + paths[1..][..n];
      }
    }
  }

  /** The folder loop inspects the files in the order given, each once, and none after
      the one that threw. */
  lemma BatchVisitsInOrder(codec: Codec, files: map<Path, Bytes>, denied: set<Path>, paths: seq<Path>)
    ensures var b := ConvertBatch(codec, files, denied, paths);
      Inspections(b.events) == paths[..Visited(b.status, |paths|)]
  {
    var step := CheckedConversion(codec, denied);
    forall f, p
      ensures Inspections(step(f, p).events) == [p]
    {
      InspectsOnlyWhenChecking(codec, f, denied, p, true);
    }
    RunBatchVisitsInOrder(step, files, paths);
  }

  /** Every run of `step` changes at most the file at the path it is given. */
  ghost predicate ChangesOnlyItsPath(step: Step)
  {
    forall files, path :: AgreeOutside(step(files, path).files, files, [path])
  }

  lemma {:induction false} RunBatchLeavesUnvisitedUnchanged(step: Step, files: map<Path, Bytes>, paths: seq<Path>)
    requires ChangesOnlyItsPath(step)
    ensures var b := RunBatch(step, files, paths);
      AgreeOutside(b.files, files, paths[..Visited(b.status, |paths|)])
    decreases |paths|
  {
    if paths != [] {
      var b := RunBatch(step, files, paths);
      var r := step(files, paths[0]);
      assert AgreeOutside(r.files, files, [paths[0]]);
      if r.outcome.Failed? {
        assert paths[..1] == [paths[0]];
      } else {
        var rest := RunBatch(step, r.files, paths[1..]);
        var n := Visited(rest.status, |paths| - 1);
        RunBatchLeavesUnvisitedUnchanged(step, r.files, paths[1..]);
        assert b.files == rest.files;
        assert Visited(b.status, |paths|) == n + 1;
        var visited := paths[..n + 1];
        assert visited == [paths[0]] + paths[1..][..n];
        forall p | p !in visited
          ensures (p in b.files <==> p in files) && (p in b.files ==> b.files[p] == files[p])
        {
          assert p !in paths[1..][..n];
          assert p !in [paths[0]];
        }
      }
    }
  }

  /** Files the loop did not reach, and files that are not in the list at all, are left
      as they were. */
  lemma BatchLeavesUnvisitedUnchanged(codec: Codec, files: map<Path, Bytes>, denied: set<Path>, paths: seq<Path>)
    ensures var b := ConvertBatch(codec, files, denied, paths);
      AgreeOutside(b.files, files, paths[..Visited(b.status, |paths|)])
  {
    var step := CheckedConversion(codec, denied);
    forall f, p
      ensures AgreeOutside(step(f, p).files, f, [p])
    {
      OnlyTargetChanges(codec, f, denied, p, true);
    }
    RunBatchLeavesUnvisitedUnchanged(step, files, paths);
  }

  /** A batch that aborts at index k ran the files before k to completion, and the file
      at k is the one whose conversion threw, with the error it threw. */
  lemma {:induction false} BatchAbortsAtFirstFailure(step: Step, files: map<Path, Bytes>, paths: seq<Path>)
    ensures var b := RunBatch(step, files, paths);
      b.status.Aborted? ==>
        var k := b.status.at;
        var pre := RunBatch(step, files, paths[..k]);
        var r := step(pre.files, paths[k]);
        k < |paths| && pre.status == Completed && r.outcome == Failed(b.status.error) &&
        b.files == r.files && b.events == pre.events + r.events
    decreases |paths|
  {
    var b := RunBatch(step, files, paths);
    if paths != [] && b.status.Aborted? {
      var first := step(files, paths[0]);
      if !first.outcome.Failed? {
        var tail := paths[1..];
        BatchAbortsAtFirstFailure(step, first.files, tail);
        var k := b.status.at;
        var pre' := RunBatch(step, first.files, tail[..k - 1]);
        var r := step(pre'.files, tail[k - 1]);
        assert paths[..k][0] == paths[0];
        assert paths[..k][1..] == tail[..k - 1];
        assert RunBatch(step, files, paths[..k]) == BatchRun(Completed, pre'.files, first.events + pre'.events);
        assert first.events + (pre'.events + r.events) == (first.events + pre'.events) + r.events;
      }
    }
  }

  /** The images a call of the per-file conversion that ended with `outcome` leaves
      undisposed. */
  function Leak(outcome: Outcome): Census
  {
    if outcome == Failed(QuantizationError) then Census(1, 0) else NoImages
  }

  /** Every run of `step` leaves at most the bitmap of a failed quantization undisposed. */
  ghost predicate LeaksOnlyOnQuantizerFailureStep(step: Step)
  {
    forall files, path ::
      Outstanding(step(files, path).events) == Leak(step(files, path).outcome)
  }

  /** A batch whose first file went through counts that file's images and the rest's. */
  lemma {:induction false} RunBatchCons(step: Step, files: map<Path, Bytes>, paths: seq<Path>)
    requires paths != [] && !step(files, paths[0]).outcome.Failed?
    ensures var r := step(files, paths[0]);
      var rest := RunBatch(step, r.files, paths[1..]);
      var b := RunBatch(step, files, paths);
      Outstanding(b.events) == Outstanding(r.events).Plus(Outstanding(rest.events)) &&
      b.status.Aborted? == rest.status.Aborted? &&
      (b.status.Aborted? ==> b.status.error == rest.status.error)
  {
    var r := step(files, paths[0]);
    OutstandingAppend(r.events, RunBatch(step, r.files, paths[1..]).events);
  }

  lemma {:induction false} RunBatchLeaks(step: Step, files: map<Path, Bytes>, paths: seq<Path>)
    requires LeaksOnlyOnQuantizerFailureStep(step)
    ensures var b := RunBatch(step, files, paths);
      Outstanding(b.events) == if b.status.Aborted? then Leak(Failed(b.status.error)) else NoImages
    decreases |paths|
  {
    if paths == [] {
      assert Outstanding([]) == NoImages;
    } else {
      var r := step(files, paths[0]);
      assert Outstanding(r.events) == Leak(r.outcome);
      if !r.outcome.Failed? {
        var b := RunBatch(step, files, paths);
        var rest := RunBatch(step, r.files, paths[1..]);
        assert Outstanding(b.events) == Outstanding(rest.events) by {
          RunBatchCons(step, files, paths);
          NoImagesIsNeutral(Outstanding(rest.events));
          assert Leak(r.outcome) == NoImages;
        }
        assert b.status.Aborted? == rest.status.Aborted? && (b.status.Aborted? ==> b.status.error == rest.status.error) by {
          RunBatchCons(step, files, paths);
        }
        RunBatchLeaks(step, r.files, paths[1..]);
      }
    }
  }

  /** Across a whole batch the only image left undisposed is the bitmap of the file whose
      quantization threw and ended the batch. */
  lemma BatchLeaksAtMostOneBitmap(codec: Codec, files: map<Path, Bytes>, denied: set<Path>, paths: seq<Path>)
    ensures var b := ConvertBatch(codec, files, denied, paths);
      Outstanding(b.events) == if b.status.Aborted? && b.status.error == QuantizationError then Census(1, 0) else NoImages
  {
    var step := CheckedConversion(codec, denied);
    forall f, p
      ensures Outstanding(step(f, p).events) == Leak(step(f, p).outcome)
    {
      LeaksOnlyOnQuantizerFailure(codec, f, denied, p, true);
    }
    RunBatchLeaks(step, files, paths);
  }

  /** Every file of `paths` can be opened and its header says 8-bit indexed. */
  ghost predicate AllIndexed(files: map<Path, Bytes>, denied: set<Path>, paths: seq<Path>)
  {
    forall i :: 0 <= i < |paths| ==> IsPng8BitColorDepth(ProbeOf(files, denied, paths[i]))
  }

  /** A file that a checked conversion skipped or converted is 8-bit indexed afterwards. */
  lemma IndexedAfterSuccess(codec: Codec, files: map<Path, Bytes>, denied: set<Path>, path: Path)
    requires EncodesQuantizedAsIndexed8(codec)
    requires !ConvertFile(codec, files, denied, path, true).outcome.Failed?
    ensures IsPng8BitColorDepth(ProbeOf(ConvertFile(codec, files, denied, path, true).files, denied, path))
  {
  }

  /** After a batch that ran to the end, every file in it is 8-bit indexed. */
  lemma {:induction false} CompletedBatchLeavesAllIndexed(codec: Codec, files: map<Path, Bytes>, denied: set<Path>, paths: seq<Path>)
    requires EncodesQuantizedAsIndexed8(codec)
    requires ConvertBatch(codec, files, denied, paths).status == Completed
    ensures AllIndexed(ConvertBatch(codec, files, denied, paths).files, denied, paths)
    decreases |paths|
  {
    if paths != [] {
      var step := CheckedConversion(codec, denied);
      var r := step(files, paths[0]);
      var tail := paths[1..];
      var rest := RunBatch(step, r.files, tail);
      var after := ConvertBatch(codec, files, denied, paths).files;
      assert after == rest.files;
      CompletedBatchLeavesAllIndexed(codec, r.files, denied, tail);
      IndexedAfterSuccess(codec, files, denied, paths[0]);
      if paths[0] !in tail {
        BatchLeavesUnvisitedUnchanged(codec, r.files, denied, tail);
        assert tail[..Visited(rest.status, |tail|)] == tail;
        assert ProbeOf(after, denied, paths[0]) == ProbeOf(r.files, denied, paths[0]);
      }
      forall i | 0 <= i < |paths|
        ensures IsPng8BitColorDepth(ProbeOf(after, denied, paths[i]))
      {
        if i > 0 {
          assert paths[i] == tail[i - 1];
        } else if paths[0] in tail {
          var j :| 0 <= j < |tail| && tail[j] == paths[0];
        }
      }
    }
  }

  /** A batch over files that are all 8-bit indexed already only inspects each header, in
      order, and changes nothing. */
  lemma {:induction false} IndexedBatchIsSkipped(codec: Codec, files: map<Path, Bytes>, denied: set<Path>, paths: seq<Path>)
    requires AllIndexed(files, denied, paths)
    ensures var b := ConvertBatch(codec, files, denied, paths);
      b.status == Completed && b.files == files &&
      |b.events| == |paths| && forall i :: 0 <= i < |paths| ==> b.events[i] == Inspected(paths[i])
    decreases |paths|
  {
    if paths != [] {
      var tail := paths[1..];
      assert AllIndexed(files, denied, tail) by {
        forall i | 0 <= i < |tail|
          ensures IsPng8BitColorDepth(ProbeOf(files, denied, tail[i]))
        {
          assert tail[i] == paths[i + 1];
        }
      }
      assert IsPng8BitColorDepth(ProbeOf(files, denied, paths[0]));
      IndexedBatchIsSkipped(codec, files, denied, tail);
      var b := ConvertBatch(codec, files, denied, paths);
      var rest := ConvertBatch(codec, files, denied, tail);
      assert b.events == [Inspected(paths[0])] + rest.events;
    }
  }

  /** Running the folder conversion again after a run that completed changes nothing: each
      file is only inspected and skipped. */
  lemma CompletedBatchIsSkippedNextTime(codec: Codec, files: map<Path, Bytes>, denied: set<Path>, paths: seq<Path>)
    requires EncodesQuantizedAsIndexed8(codec)
    requires ConvertBatch(codec, files, denied, paths).status == Completed
    ensures var after := ConvertBatch(codec, files, denied, paths).files;
      var again := ConvertBatch(codec, after, denied, paths);
      again.status == Completed && again.files == after &&
      |again.events| == |paths| && forall i :: 0 <= i < |paths| ==> again.events[i] == Inspected(paths[i])
  {
    CompletedBatchLeavesAllIndexed(codec, files, denied, paths);
    IndexedBatchIsSkipped(codec, ConvertBatch(codec, files, denied, paths).files, denied, paths);
  }
}
