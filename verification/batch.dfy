/** The script's top-level loop: for every entry of the input folder's
  * listing whose name passes the ".tif" filter, open the raster, read bands
  * 4, 3 and 2 as red, green and blue, normalise each, stack them per pixel,
  * resize the composite to 256x256 and save it as `<stem>_RGB.jpg` in the
  * output folder. Any exception while converting one file becomes one error
  * line and the loop goes on with the next entry.
  *
  * Decoding the raster, resampling and encoding are an oracle (`Io`); the
  * output folder is a map from path to what was written there. */
module Batch {
  import opened OrderStats
  import opened Normalize
  import opened Naming

  const InputFolder: string := "maridaTif"
  const OutputFolder: string := "maridaRGB256"

  /** Sentinel-2 band numbers (1-based) read as red, green and blue. */
  const RedBand: nat := 4
  const GreenBand: nat := 3
  const BlueBand: nat := 2

  /** Side of the square thumbnail. */
  const ThumbnailSize: nat := 256

  datatype Option<T> = None | Some(value: T)

  /** An opened raster: band k (1-based) is `bands[k - 1]`. */
  datatype Raster = Raster(bands: seq<Band>)

  /** One pixel of the composite, channel order red, green, blue. */
  datatype Rgb = Rgb(red: Byte, green: Byte, blue: Byte)

  type Image = seq<seq<Rgb>>

  /** What a saved file holds. `Unspecified`: a channel was degenerate, so its
    * samples are uint8 casts of NaN and the bytes written are not specified. */
  datatype Picture = Pixels(image: Image) | Unspecified

  /** The collaborators the loop calls and the model does not look inside. */
  datatype Io = Io(
    open: string -> Option<Raster>,       // rasterio.open and read; None when it raises
    resizeFails: string -> bool,          // Image.fromarray or the resize raises for this input
    resize: (Image, nat, nat) -> Image,   // the Lanczos resize when it does not raise
    saveFails: string -> bool)            // Image.save raises for this path

  /** Why converting one file raised. */
  datatype Failure =
    | OpenFailed              // the raster could not be opened or decoded
    | BandMissing(band: nat)  // `src.read(band)` beyond the raster's band count
    | ZeroSizeBand            // `band.min()` of a band without samples
    | ShapeMismatch           // `np.stack` of bands of different shapes
    | ResizeFailed            // `Image.fromarray` or the resize raised
    | SaveFailed              // writing the JPEG raised

  /** What the loop reports for one selected name: a saved file or an error line. */
  datatype Event =
    | Saved(input: string, path: string, picture: Picture)
    | Failed(input: string, reason: Failure)
  {
    function Input(): string {
      match this
      case Saved(n, _, _) => n
      case Failed(n, _) => n
    }
  }

  /** The first band, in the order the script reads them, that the raster lacks. */
  function MissingBand(raster: Raster): (missing: Option<nat>)
    ensures missing.None? <==>
              1 <= BlueBand && 1 <= GreenBand && 1 <= RedBand &&
              RedBand <= |raster.bands| && GreenBand <= |raster.bands| && BlueBand <= |raster.bands|
    ensures missing.Some? ==> missing.value > |raster.bands|
  {
    if RedBand > |raster.bands| then Some(RedBand)
    else if GreenBand > |raster.bands| then Some(GreenBand)
    else if BlueBand > |raster.bands| then Some(BlueBand)
    else None
  }

  /** `np.stack((red, green, blue), axis=-1)` of three channels of one shape. */
  function Stack(red: seq<seq<Byte>>, green: seq<seq<Byte>>, blue: seq<seq<Byte>>): (image: Image)
    requires SameShape(red, green) && SameShape(red, blue)
    ensures SameShape(image, red)
    ensures forall i, j :: 0 <= i < |red| && 0 <= j < |red[i]| ==>
              image[i][j].red == red[i][j] && image[i][j].green == green[i][j] && image[i][j].blue == blue[i][j]
  {
    seq(|red|, i requires 0 <= i < |red| =>
      seq(|red[i]|, j requires 0 <= j < |red[i]| => Rgb(red[i][j], green[i][j], blue[i][j])))
  }

  /** Normalise three same-shaped bands and stack them; None when a channel
    * is degenerate. Each pixel takes its red, green and blue levels from the
    * same position of the red, green and blue bands. */
  function Compose(red: Band, green: Band, blue: Band): (image: Option<Image>)
    requires SameShape(red, green) && SameShape(red, blue)
    ensures image.Some? <==>
              NormalizeBand(red).Levels? && NormalizeBand(green).Levels? && NormalizeBand(blue).Levels?
    ensures image.Some? ==>
              SameShape(image.value, red) &&
              forall i, j :: 0 <= i < |red| && 0 <= j < |red[i]| ==>
                image.value[i][j].red == NormalizeBand(red).rows[i][j] &&
                image.value[i][j].green == NormalizeBand(green).rows[i][j] &&
                image.value[i][j].blue == NormalizeBand(blue).rows[i][j]
  {
    var r, g, b := NormalizeBand(red), NormalizeBand(green), NormalizeBand(blue);
    if r.Levels? && g.Levels? && b.Levels? then
      SameShapeTransitive(r.rows, red, green);
      SameShapeTransitive(r.rows, green, g.rows);
      SameShapeTransitive(r.rows, red, blue);
      SameShapeTransitive(r.rows, blue, b.rows);
      Some(Stack(r.rows, g.rows, b.rows))
    else None
  }

  /** A raster the conversion gets through: it has bands 4, 3 and 2, each
    * with samples, all of one shape. */
  predicate Convertible(raster: Raster) {
    && MissingBand(raster).None?
    && var red, green, blue := raster.bands[RedBand - 1], raster.bands[GreenBand - 1], raster.bands[BlueBand - 1];
    && Flatten(red) != [] && Flatten(green) != [] && Flatten(blue) != []
    && SameShape(red, green) && SameShape(red, blue)
  }

  /** Where the thumbnail of `name` is saved. */
  function OutputPath(name: string): string {
    Join(OutputFolder, OutputName(name))
  }

  /** The picture the conversion of a convertible raster saves. */
  function Thumbnail(raster: Raster, io: Io): (picture: Picture)
    requires Convertible(raster)
    ensures picture.Unspecified? <==>
              NormalizeBand(raster.bands[RedBand - 1]).Undefined? ||
              NormalizeBand(raster.bands[GreenBand - 1]).Undefined? ||
              NormalizeBand(raster.bands[BlueBand - 1]).Undefined?
    ensures picture.Pixels? ==>
              var composite := Compose(raster.bands[RedBand - 1], raster.bands[GreenBand - 1], raster.bands[BlueBand - 1]);
              composite.Some? && picture.image == io.resize(composite.value, ThumbnailSize, ThumbnailSize)
  {
    var red, green, blue := raster.bands[RedBand - 1], raster.bands[GreenBand - 1], raster.bands[BlueBand - 1];
    match Compose(red, green, blue)
    case Some(image) => Pixels(io.resize(image, ThumbnailSize, ThumbnailSize))
    case None => Unspecified
  }

  /** The body of the try block for one selected name, with the exception it
    * may raise turned into a `Failed` event. */
  function ProcessFile(name: string, io: Io): (e: Event)
    ensures e.Input() == name
    ensures e.Saved? <==>
              io.open(Join(InputFolder, name)).Some? &&
              Convertible(io.open(Join(InputFolder, name)).value) &&
              !io.resizeFails(name) && !io.saveFails(OutputPath(name))
    ensures e.Saved? ==>
              e.path == OutputPath(name) &&
              e.picture == Thumbnail(io.open(Join(InputFolder, name)).value, io)
    ensures e == Failed(name, OpenFailed) <==> io.open(Join(InputFolder, name)).None?
    ensures e.Failed? && e.reason.BandMissing? <==>
              io.open(Join(InputFolder, name)).Some? && MissingBand(io.open(Join(InputFolder, name)).value).Some?
    ensures e.Failed? && e.reason.BandMissing? ==> e.reason.band == MissingBand(io.open(Join(InputFolder, name)).value).value
    ensures e == Failed(name, ZeroSizeBand) <==>
              io.open(Join(InputFolder, name)).Some? && MissingBand(io.open(Join(InputFolder, name)).value).None? &&
              var bands := io.open(Join(InputFolder, name)).value.bands;
              (Flatten(bands[RedBand - 1]) == [] || Flatten(bands[GreenBand - 1]) == [] || Flatten(bands[BlueBand - 1]) == [])
    ensures e == Failed(name, ShapeMismatch) <==>
              io.open(Join(InputFolder, name)).Some? && MissingBand(io.open(Join(InputFolder, name)).value).None? &&
              var bands := io.open(Join(InputFolder, name)).value.bands;
              Flatten(bands[RedBand - 1]) != [] && Flatten(bands[GreenBand - 1]) != [] && Flatten(bands[BlueBand - 1]) != [] &&
              !(SameShape(bands[RedBand - 1], bands[GreenBand - 1]) && SameShape(bands[RedBand - 1], bands[BlueBand - 1]))
    ensures e == Failed(name, ResizeFailed) <==>
              io.open(Join(InputFolder, name)).Some? &&
              Convertible(io.open(Join(InputFolder, name)).value) && io.resizeFails(name)
    ensures e == Failed(name, SaveFailed) <==>
              io.open(Join(InputFolder, name)).Some? &&
              Convertible(io.open(Join(InputFolder, name)).value) &&
              !io.resizeFails(name) && io.saveFails(OutputPath(name))
  {
    match io.open(Join(InputFolder, name))
    case None => Failed(name, OpenFailed)
    case Some(raster) =>
      match MissingBand(raster)
      case Some(band) => Failed(name, BandMissing(band))
      case None =>
        var red, green, blue := raster.bands[RedBand - 1], raster.bands[GreenBand - 1], raster.bands[BlueBand - 1];
        if Flatten(red) == [] || Flatten(green) == [] || Flatten(blue) == [] then Failed(name, ZeroSizeBand)
        else if !(SameShape(red, green) && SameShape(red, blue)) then Failed(name, ShapeMismatch)
        else if io.resizeFails(name) then Failed(name, ResizeFailed)
        else if io.saveFails(OutputPath(name)) then Failed(name, SaveFailed)
        else Saved(name, OutputPath(name), Thumbnail(raster, io))
  }

  /** The events the loop emits for a listing, in listing order. */
  function BatchLog(listing: seq<string>, io: Io): seq<Event> {
    if listing == [] then []
    else
      var name := listing[|listing| - 1];
      BatchLog(listing[..|listing| - 1], io) + if IsTif(name) then [ProcessFile(name, io)] else []
  }

  /** The names the filter selects, in listing order. */
  function Selected(listing: seq<string>): (names: seq<string>)
    ensures forall k :: 0 <= k < |names| ==> IsTif(names[k]) && names[k] in listing
    ensures forall n :: n in listing && IsTif(n) ==> n in names
  {
    if listing == [] then []
    else
      var name := listing[|listing| - 1];
      var front := listing[..|listing| - 1];
      assert listing == front + [name];
      Selected(front) + if IsTif(name) then [name] else []
  }

  /** The output folder after the saves of `log`, in order, applied to `folder`. */
  function Written(folder: map<string, Picture>, log: seq<Event>): map<string, Picture> {
    if log == [] then folder
    else
      var previous := Written(folder, log[..|log| - 1]);
      var e := log[|log| - 1];
      if e.Saved? then previous[e.path := e.picture] else previous
  }

  /** One more event changes the folder by its save, if any. */
  lemma WrittenStep(folder: map<string, Picture>, log: seq<Event>, e: Event)
    ensures Written(folder, log + [e]) ==
            if e.Saved? then Written(folder, log)[e.path := e.picture] else Written(folder, log)
  {
    assert (log + [e])[..|log|] == log;
  }

  /** The loop over the listing: one event per selected name, and the output
    * folder updated by every save. */
  method ConvertFolder(listing: seq<string>, io: Io, existing: map<string, Picture>)
    returns (log: seq<Event>, folder: map<string, Picture>)
    ensures log == BatchLog(listing, io)
    ensures folder == Written(existing, log)
  {
    log, folder := [], existing;
    for k := 0 to |listing|
      invariant log == BatchLog(listing[..k], io)
      invariant folder == Written(existing, log)
    {
      var name := listing[k];
      ghost var before := log;
      assert listing[..k + 1][..k] == listing[..k] && listing[..k + 1][k] == name;
      assert BatchLog(listing[..k + 1], io) == before + if IsTif(name) then [ProcessFile(name, io)] else [];
      if IsTif(name) {
        var e := ProcessFile(name, io);
        log := log + [e];
        WrittenStep(existing, before, e);
        if e.Saved? {
          folder := folder[e.path := e.picture];
        }
      }
    }
    assert listing[..|listing|] == listing;
  }

  /** The log of a concatenated listing is the concatenation of the logs. */
  lemma {:induction false} BatchLogAppend(a: seq<string>, b: seq<string>, io: Io)
    ensures BatchLog(a + b, io) == BatchLog(a, io) + BatchLog(b, io)
  {
    if b == [] {
      assert a + b == a;
    } else {
      var front := b[..|b| - 1];
      assert a + b == (a + front) + [b[|b| - 1]];
      assert (a + b)[..|a + b| - 1] == a + front;
      BatchLogAppend(a, front, io);
    }
  }

  /** A name the filter rejects leaves no trace: no save, no error line. */
  lemma SkippedNameLeavesNoTrace(before: seq<string>, name: string, after: seq<string>, io: Io)
    requires !IsTif(name)
    ensures BatchLog(before + [name] + after, io) == BatchLog(before + after, io)
  {
    BatchLogAppend(before + [name], after, io);
    BatchLogAppend(before, [name], io);
    BatchLogAppend(before, after, io);
    assert BatchLog([name], io) == [] by {
      assert [name][..0] == [];
    }
  }

  /** A selected name yields exactly its own event, whether it saves or fails,
    * and the entries before and after it are converted as if it were absent. */
  lemma FileIsolated(before: seq<string>, name: string, after: seq<string>, io: Io)
    requires IsTif(name)
    ensures BatchLog(before + [name] + after, io) ==
            BatchLog(before, io) + [ProcessFile(name, io)] + BatchLog(after, io)
  {
    BatchLogAppend(before + [name], after, io);
    BatchLogAppend(before, [name], io);
    assert BatchLog([name], io) == [ProcessFile(name, io)] by {
      assert [name][..0] == [];
    }
  }

  /** The log holds exactly one event per selected name, in listing order,
    * and each is that name's own outcome. */
  lemma {:induction false} LogFollowsSelection(listing: seq<string>, io: Io)
    ensures |BatchLog(listing, io)| == |Selected(listing)|
    ensures forall k :: 0 <= k < |Selected(listing)| ==>
              BatchLog(listing, io)[k] == ProcessFile(Selected(listing)[k], io)
  {
    if listing != [] {
      var front, name := listing[..|listing| - 1], listing[|listing| - 1];
      LogFollowsSelection(front, io);
      var log, names := BatchLog(listing, io), Selected(listing);
      assert log == BatchLog(front, io) + if IsTif(name) then [ProcessFile(name, io)] else [];
      assert names == Selected(front) + if IsTif(name) then [name] else [];
      forall k | 0 <= k < |names|
        ensures log[k] == ProcessFile(names[k], io)
      {
        if k < |Selected(front)| {
          assert log[k] == BatchLog(front, io)[k];
          assert names[k] == Selected(front)[k];
        }
      }
    }
  }

  /** Every event names a selected entry; every saved file sits at the output
    * path derived from its input name and that path ends with "_RGB.jpg". */
  lemma LoggedEventsShape(listing: seq<string>, io: Io, k: nat)
    requires k < |BatchLog(listing, io)|
    ensures BatchLog(listing, io)[k].Input() in listing
    ensures IsTif(BatchLog(listing, io)[k].Input())
    ensures BatchLog(listing, io)[k].Saved? ==>
              BatchLog(listing, io)[k].path == OutputPath(BatchLog(listing, io)[k].Input()) &&
              EndsWith(BatchLog(listing, io)[k].path, OutputSuffix)
  {
    LogFollowsSelection(listing, io);
    OutputPathShape(OutputFolder, BatchLog(listing, io)[k].Input());
  }

  /** The files the saves of a log leave, later saves overwriting earlier ones. */
  function SavedFiles(log: seq<Event>): map<string, Picture> {
    Written(map[], log)
  }

  /** Running the saves over a folder is overriding it with the saved files. */
  lemma {:induction false} WrittenOverrides(folder: map<string, Picture>, log: seq<Event>)
    ensures Written(folder, log) == folder + SavedFiles(log)
  {
    if log != [] {
      var front := log[..|log| - 1];
      WrittenOverrides(folder, front);
      WrittenOverrides(map[], front);
      assert map[] + SavedFiles(front) == SavedFiles(front);
    }
  }

  /** Only saves create or change files: a path no event saved to keeps what
    * the folder held before, and a failed conversion writes nothing. */
  lemma {:induction false} UnsavedPathUnchanged(folder: map<string, Picture>, log: seq<Event>, path: string)
    requires forall k :: 0 <= k < |log| && log[k].Saved? ==> log[k].path != path
    ensures path in Written(folder, log) <==> path in folder
    ensures path in folder ==> Written(folder, log)[path] == folder[path]
  {
    if log != [] {
      UnsavedPathUnchanged(folder, log[..|log| - 1], path);
    }
  }

  /** Running the batch a second time over the same inputs leaves the output
    * folder as the first run left it. */
  lemma BatchIdempotent(listing: seq<string>, io: Io, existing: map<string, Picture>)
    ensures var log := BatchLog(listing, io);
            Written(Written(existing, log), log) == Written(existing, log)
  {
    var log := BatchLog(listing, io);
    WrittenOverrides(existing, log);
    WrittenOverrides(Written(existing, log), log);
    assert existing + SavedFiles(log) + SavedFiles(log) == existing + SavedFiles(log);
  }
}
