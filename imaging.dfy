/** What the conversion pipeline calls but does not implement: the file system, the
    System.Drawing bitmap decoder and PNG encoder, and the nQuant Wu quantizer.
    The libraries are given as total functions that may fail; the file system is a map
    from paths to contents. */
module Imaging {

  datatype Option<+T> = None | Some(value: T)

  newtype byte = x: int | 0 <= x < 256

  type Bytes = seq<byte>

  type Path = string

  /** A decoded image held in memory. The pipeline only passes images from one library
      call to the next, so their pixels stay abstract. */
  datatype Raster = Raster(pixels: seq<int>)

  /** What `Image.Save` leaves behind: the encoded stream, or a failure together with what
      the target file holds afterwards (None: the file was not touched; Some: the stream
      was opened over the old file and only part of the new content reached it). */
  datatype SaveResult =
    | Written(bytes: Bytes)
    | SaveFailed(left: Option<Bytes>)

  /** The imaging libraries: `new Bitmap(bytes)`, `WuQuantizer.QuantizeImage` and
      `Image.Save(.., ImageFormat.Png)`; `None` and `SaveFailed` stand for an exception. */
  datatype Codec = Codec(
    decode: Bytes -> Option<Raster>,
    quantize: Raster -> Option<Raster>,
    encode: Raster -> SaveResult)

  /** Why opening a file for reading throws. */
  datatype IoError = FileNotFound | AccessDenied

  /** The result of opening a file, seeking and reading: its contents, or the exception. */
  datatype Probe = Opened(bytes: Bytes) | Threw(error: IoError)

  /** The two disposable image objects of one conversion. */
  datatype ImageKind = BitmapImage | QuantizedImage

  /** One call from the pipeline into the file system or the imaging libraries. */
  datatype Event =
    | Inspected(path: Path)
    | Decoded(path: Path, ok: bool)
    | Quantized(ok: bool)
    | Disposed(kind: ImageKind)
    | Saved(path: Path, ok: bool)

  /** How many image objects of each kind have been created and not yet disposed. */
  datatype Census = Census(bitmaps: int, quantized: int) {
    function Plus(other: Census): Census
    {
      Census(bitmaps + other.bitmaps, quantized + other.quantized)
    }
  }

  const NoImages := Census(0, 0)

  lemma NoImagesIsNeutral(c: Census)
    ensures NoImages.Plus(c) == c && c.Plus(NoImages) == c
  {
  }

  /** What one call does to the number of undisposed images. */
  function Effect(e: Event): Census
  {
    match e
    case Decoded(_, true) => Census(1, 0)
    case Quantized(true) => Census(0, 1)
    case Disposed(BitmapImage) => Census(-1, 0)
    case Disposed(QuantizedImage) => Census(0, -1)
    case _ => NoImages
  }

  /** The images that a sequence of calls creates and leaves undisposed. */
  function Outstanding(events: seq<Event>): Census
  {
    if events == [] then NoImages
    else
      Effect(events[0]).Plus(Outstanding(events[1..]))
  }

  /** Opening `path` for reading: missing files and paths the process may not open throw. */
  function ProbeOf(files: map<Path, Bytes>, denied: set<Path>, path: Path): (p: Probe)
    ensures p.Opened? <==> path in files && path !in denied
    ensures p.Opened? ==> p.bytes == files[path]
  {
    if path !in files then Threw(FileNotFound)
    else if path in denied then Threw(AccessDenied)
    else Opened(files[path])
  }

  /** `new Bitmap(path)`: fails on a file that cannot be opened or does not decode. */
  function Load(codec: Codec, files: map<Path, Bytes>, denied: set<Path>, path: Path): (bitmap: Option<Raster>)
    ensures bitmap.Some? ==> path in files && path !in denied && codec.decode(files[path]) == bitmap
  {
    if path in files && path !in denied then codec.decode(files[path]) else None
  }

  /** `image.Save(path, ImageFormat.Png)`: a path the process may not write fails before
      anything is written. */
  function SaveTo(codec: Codec, denied: set<Path>, path: Path, image: Raster): (s: SaveResult)
    ensures path in denied ==> s == SaveFailed(None)
    ensures path !in denied ==> s == codec.encode(image)
  {
    if path in denied then SaveFailed(None) else codec.encode(image)
  }

  /** The files after a save to `path`: only `path` can change. */
  function AfterSave(files: map<Path, Bytes>, path: Path, s: SaveResult): (after: map<Path, Bytes>)
    ensures s.Written? ==> after == files[path := s.bytes]
    ensures s == SaveFailed(None) ==> after == files
    ensures forall p :: p != path ==> (p in after <==> p in files)
    ensures forall p :: p != path && p in files ==> after[p] == files[p]
  {
    match s
    case Written(bytes) => files[path := bytes]
    case SaveFailed(None) => files
    case SaveFailed(Some(partial)) => files[path := partial]
  }

  /** The machine the tool runs on: its files and the imaging libraries. The ghost
      field records every call the pipeline makes, in order. */
  class Host {
    var files: map<Path, Bytes>
    const denied: set<Path>
    const codec: Codec
    ghost var trace: seq<Event>

    constructor (files: map<Path, Bytes>, denied: set<Path>, codec: Codec)
      ensures this.files == files && this.denied == denied && this.codec == codec
      ensures trace == []
    {
      this.files := files;
      this.denied := denied;
      this.codec := codec;
      trace := [];
    }

    /** `new FileStream(path, FileMode.Open, FileAccess.Read)`, the seek and the read,
        with the stream closed again before returning. */
    method OpenHeader(path: Path) returns (p: Probe)
      modifies this`trace
      ensures p == ProbeOf(files, denied, path)
      ensures trace == old(trace) + [Inspected(path)]
    {
      p := ProbeOf(files, denied, path);
      trace := trace + [Inspected(path)];
    }

    /** `new Bitmap(path)`, which keeps the file open until the bitmap is disposed. */
    method NewBitmap(path: Path) returns (bitmap: Option<Raster>)
      modifies this`trace
      ensures bitmap == Load(codec, files, denied, path)
      ensures trace == old(trace) + [Decoded(path, bitmap.Some?)]
    {
      bitmap := Load(codec, files, denied, path);
      trace := trace + [Decoded(path, bitmap.Some?)];
    }

    /** `WuQuantizer.QuantizeImage(bitmap)`. */
    method QuantizeImage(bitmap: Raster) returns (quantized: Option<Raster>)
      modifies this`trace
      ensures quantized == codec.quantize(bitmap)
      ensures trace == old(trace) + [Quantized(quantized.Some?)]
    {
      quantized := codec.quantize(bitmap);
      trace := trace + [Quantized(quantized.Some?)];
    }

    /** `Dispose()` on an image object. */
    method Dispose(kind: ImageKind)
      modifies this`trace
      ensures trace == old(trace) + [Disposed(kind)]
    {
      trace := trace + [Disposed(kind)];
    }

    /** `image.Save(path, ImageFormat.Png)`, overwriting `path` in place. */
    method Save(image: Raster, path: Path) returns (ok: bool)
      modifies this`files, this`trace
      ensures ok == SaveTo(codec, denied, path, image).Written?
      ensures files == AfterSave(old(files), path, SaveTo(codec, denied, path, image))
      ensures trace == old(trace) + [Saved(path, ok)]
    {
      var s := SaveTo(codec, denied, path, image);
      files := AfterSave(files, path, s);
      ok := s.Written?;
      trace := trace + [Saved(path, ok)];
    }
  }
}
