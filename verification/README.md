# tif2rgb in Dafny

`images-process/tif2rgb.py` converts Sentinel-2 GeoTIFF rasters into 8-bit
RGB thumbnails. It lists the input folder and keeps the entries whose
lower-cased name ends with `.tif`. For each one it reads bands 4, 3 and 2 as
red, green and blue, and stretches each band with `normalize_percentile`:

- take the 2nd and 98th percentiles as `low` and `high`;
- clip every sample to them;
- rescale to 0..255 and cast to `uint8`.

It then stacks the three channels per pixel, resizes the result to 256×256 and
saves it as `<stem>_RGB.jpg`. An exception while converting one file prints an
error line, and the loop goes on with the next file.

The model has four modules:

- `OrderStats` (`percentile.dfy`): the minimum, the maximum, a sort, and
  numpy's default ("linear") percentile. That percentile sorts the samples,
  takes rank q/100·(n−1) and interpolates between the neighbouring order
  statistics.
- `Normalize` (`normalize.dfy`): the band normaliser over a 2-D band
  `seq<seq<real>>`. Samples are exact reals standing for float64. The cast to
  `uint8` is `Floor`. It is only applied when the value is in [0, 255], which
  always holds when `high != low`. When `high == low`, the result is the
  explicit `Undefined`. Numpy's own exceptions are modelled as `Raised`: an
  empty band, and a percentile outside [0, 100].
- `Naming` (`naming.dfy`): ASCII `str.lower`, `str.endswith`, POSIX
  `os.path.splitext` and `os.path.join`, and the output name.
- `Batch` (`batch.dfy`): the try block for one file as a function
  (`ProcessFile`) over an `Io` oracle. The oracle stands for rasterio's
  open/read, PIL's fromarray and resize, and the save. Each of them may raise. The
  `for file_name in os.listdir(...)` loop is the method `ConvertFolder`. It
  returns the log of events (one `Saved` or one `Failed` per selected name)
  and the output folder as a map from path to picture. Its loop invariants tie
  both to the specification functions `BatchLog` and `Written`.

Two behaviours of the code are kept as written:

- `astype(np.uint8)` truncates, so an exact rescaled value of 127.5 becomes
  127 (`Normalize.LevelTruncates`).
- When `high == low` the code computes 0/0 for every sample and casts NaN to
  `uint8`. The model returns `Undefined` and never invents a value. In the
  batch the file is still saved, because numpy does not raise here, and what
  it holds is `Picture.Unspecified`.

## Model

| member | source | states |
|---|---|---|
| `OrderStats.Min` | images-process/tif2rgb.py:16-17 | the result is a sample and no sample is smaller |
| `OrderStats.Max` | images-process/tif2rgb.py:16-17 | the result is a sample and no sample is larger |
| `OrderStats.Insert` | images-process/tif2rgb.py:16-17 | inserting into a sorted sequence keeps it sorted and adds exactly one occurrence of the element |
| `OrderStats.Sort` | images-process/tif2rgb.py:16-17 | the samples percentile interpolates on are sorted and are a permutation of the band's samples |
| `OrderStats.SortEnds` | images-process/tif2rgb.py:16-17 | the first and last order statistics are the band's minimum and maximum |
| `OrderStats.Rank` | images-process/tif2rgb.py:16-17 | the rank q/100·(n−1) lies between 0 and n−1 for 0 ≤ q ≤ 100 |
| `OrderStats.InterpolateBetween` | images-process/tif2rgb.py:16-17 | the interpolated value lies between the two order statistics around the rank, so between the smallest and the largest |
| `OrderStats.InterpolateMonotone` | images-process/tif2rgb.py:16-17 | a higher rank never gives a smaller interpolated value |
| `OrderStats.Interpolate` | images-process/tif2rgb.py:16-17 | numpy's linear interpolation between the order statistics around the rank; no contract of its own: `InterpolateBetween` bounds it and `InterpolateMonotone` orders it |
| `OrderStats.Percentile` | images-process/tif2rgb.py:16-17 | min(band) ≤ percentile ≤ max(band) for every q in [0, 100] |
| `OrderStats.PercentileMonotone` | images-process/tif2rgb.py:16-17 | q1 ≤ q2 implies percentile(q1) ≤ percentile(q2), so low ≤ high because 2 ≤ 98 |
| `OrderStats.PercentileOfConstant` | images-process/tif2rgb.py:16-17 | every percentile of a constant band is that constant |
| `Normalize.Flatten` | images-process/tif2rgb.py:16-17 | the flattened sequence has one entry per sample of the 2-D band (its length is the sum of the row lengths), every sample appears in it, and it is empty exactly when the band has no samples |
| `Normalize.FlattenIndex` | images-process/tif2rgb.py:16-17 | the flattening is row-major: sample (i, j) sits at index (length of rows 0..i−1) + j |
| `Normalize.Bounds` | images-process/tif2rgb.py:16-17 | min(band) ≤ low, high ≤ max(band), and low ≤ high whenever lower ≤ upper |
| `Normalize.Clip` | images-process/tif2rgb.py:18 | np.clip: the result lies in [low, high], a sample already inside is unchanged, one below becomes low, one above becomes high; with low > high everything becomes high |
| `Normalize.Scale` | images-process/tif2rgb.py:19 | the exact rescale (c − low)/(high − low)·255; no contract of its own: `ScaleInRange` bounds it and gives its endpoints |
| `Normalize.ScaleInRange` | images-process/tif2rgb.py:19 | a clipped sample rescales into [0, 255], to 0 at or below low and to 255 at or above high |
| `Normalize.Level` | images-process/tif2rgb.py:19 | the uint8 result is in [0, 255] and is the floor of the exact rescaled value; samples ≤ low give 0 and samples ≥ high give 255 |
| `Normalize.LevelMonotone` | images-process/tif2rgb.py:18-19 | for high > low, a ≤ b implies level(a) ≤ level(b) |
| `Normalize.LevelTruncates` | images-process/tif2rgb.py:19 | the cast truncates: the exact value 127.5 becomes 127, not 128 |
| `Normalize.LevelsOf` | images-process/tif2rgb.py:18-19 | the elementwise clip, rescale and cast: same shape as the band, and each output is the level of the sample at that position |
| `Normalize.NormalizePercentile` | images-process/tif2rgb.py:15-19 | in the order the code computes them: a range error for an invalid lower percentile, then the empty-band error, then a range error for an invalid upper percentile; undefined exactly when low == high; otherwise same shape as the band and each output is the level of the sample at that position |
| `Normalize.NormalizeBand` | images-process/tif2rgb.py:38-40 | with the default percentiles it raises only for an empty band, and a defined result has the band's shape |
| `Normalize.DefinedIffSpread` | images-process/tif2rgb.py:16-19 | with the defaults the result is defined exactly when low < high and undefined exactly when low == high |
| `Normalize.ConstantBandUndefined` | images-process/tif2rgb.py:19 | a constant band hits the zero denominator and yields Undefined, never a made-up value |
| `Normalize.FlattenMember` | images-process/tif2rgb.py:16-17 | every flattened sample comes from some position of the band |
| `Normalize.NormalizeMonotone` | images-process/tif2rgb.py:18-19 | a sample no larger than another never gets a larger output level |
| `Normalize.NormalizeEndpoints` | images-process/tif2rgb.py:18-19 | samples ≤ low map to 0 and samples ≥ high map to 255; the band's minimum maps to 0 and its maximum to 255 |
| `Naming.LowerChar` | images-process/tif2rgb.py:23 | the result is never an upper-case ASCII letter; upper-case letters map to their lower-case form and everything else is unchanged |
| `Naming.Lower` | images-process/tif2rgb.py:23 | `str.lower`: same length, and each character is `LowerChar` of the input's |
| `Naming.EndsWith` | images-process/tif2rgb.py:23 | `str.endswith`; no contract of its own: `EndsWithTransitive` and `Join` use it |
| `Naming.IsTif` | images-process/tif2rgb.py:23 | the filter; no contract of its own: `TifIffExtension` characterises it and `TifExtensionShape` gives the extension's shape |
| `Naming.TifIffExtension` | images-process/tif2rgb.py:23 | a name is selected exactly when its last four characters lower-case to ".tif" |
| `Naming.TifExtensionShape` | images-process/tif2rgb.py:23 | an extension that lower-cases to ".tif" is a dot followed by three characters that are neither dot nor slash |
| `Naming.RFind` | images-process/tif2rgb.py:50 | the result is the last index holding the character, or −1 when it does not occur |
| `Naming.SplitExt` | images-process/tif2rgb.py:50 | root + ext is the whole name |
| `Naming.SplitExtExtension` | images-process/tif2rgb.py:50 | the extension is empty, or the name's last dot followed by characters that are neither dots nor slashes |
| `Naming.SplitExtOfStem` | images-process/tif2rgb.py:50 | a slash-free stem with a non-dot character, followed by a dot extension, splits into exactly that stem and extension |
| `Naming.SplitExtOfDotStem` | images-process/tif2rgb.py:50 | a stem made only of dots gives no extension, so the whole name is the root |
| `Naming.Join` | images-process/tif2rgb.py:50 | posixpath.join: the path ends with the name; an absolute name replaces the folder; otherwise the path starts with the folder, a '/' precedes the name when the folder is non-empty, and the length is folder + name plus one exactly when the folder is non-empty and does not end in '/' |
| `Naming.OutputName` | images-process/tif2rgb.py:50 | splitext root + "_RGB.jpg"; no contract of its own: `OutputNameOfTif`, `OutputNameOfDotStem`, `OutputNameInjective` and `OutputPathShape` state its properties |
| `Naming.OutputNameOfTif` | images-process/tif2rgb.py:23-50 | for `stem + ext`, with ext ".tif" in any letter case and a stem holding a non-dot character, the name is selected and its output name is stem + "_RGB.jpg" |
| `Naming.OutputNameOfDotStem` | images-process/tif2rgb.py:50 | a selected name whose stem is all dots keeps its extension in the output name |
| `Naming.DotOnlyNameKeepsExtension` | images-process/tif2rgb.py:23-50 | ".tif" is selected and its output name is ".tif_RGB.jpg" |
| `Naming.ExtensionCaseCollides` | images-process/tif2rgb.py:50-51 | two names that differ only in the letter case of ".tif" are both selected and share one output name; by `Batch.WrittenStep`, the later save then overwrites the earlier |
| `Naming.OutputNameInjective` | images-process/tif2rgb.py:50 | equal output names imply equal stems |
| `Naming.EndsWithTransitive` | images-process/tif2rgb.py:50 | a suffix of a suffix is a suffix |
| `Naming.OutputPathShape` | images-process/tif2rgb.py:50 | every output path ends with "_RGB.jpg" |
| `Batch.MissingBand` | images-process/tif2rgb.py:29-31 | no band is reported missing exactly when the raster has bands 4, 3 and 2; a reported band is beyond the band count |
| `Batch.Stack` | images-process/tif2rgb.py:43 | the stacked image has the channels' shape, and pixel (i, j) holds red, green and blue from position (i, j) of the three channels |
| `Batch.Compose` | images-process/tif2rgb.py:38-43 | the composite is defined exactly when all three channels are; each pixel's red, green and blue are the normalised levels of its red, green and blue arguments at the same position; `Thumbnail` passes bands 4, 3 and 2 |
| `Batch.Convertible` | images-process/tif2rgb.py:29-43 | bands 4, 3 and 2 exist, have samples and share one shape; no contract of its own: `ProcessFile` states that it is exactly what gets past the reads, the normalisation and the stack |
| `Batch.OutputPath` | images-process/tif2rgb.py:50 | the output folder joined with the output name; no contract of its own: `OutputPathShape` and `LoggedEventsShape` state its shape |
| `Batch.Thumbnail` | images-process/tif2rgb.py:38-47 | the saved picture is unspecified exactly when one of the three bands is degenerate; otherwise it is `Io.resize`, called with 256 and 256, of the composite of bands 4, 3 and 2 |
| `Batch.ProcessFile` | images-process/tif2rgb.py:24-56 | one event for the name: saved exactly when the raster opens, has bands 4/3/2 with samples and of one shape, and neither the fromarray/resize step nor the save raises; a save goes to the derived output path with the composed thumbnail; an unopenable raster gives the open error, a missing band names the first band read that is absent, an empty band gives the zero-size error before a shape mismatch is looked at, and a resize or save failure is reported exactly when that step is the first to raise |
| `Batch.BatchLog` | images-process/tif2rgb.py:22-56 | the events of the loop; no contract of its own: `ConvertFolder` equals it, and `LogFollowsSelection`, `FileIsolated` and `SkippedNameLeavesNoTrace` state its properties |
| `Batch.Selected` | images-process/tif2rgb.py:22-23 | every selected name is a ".tif" entry of the listing, and every ".tif" entry is selected |
| `Batch.Written` | images-process/tif2rgb.py:51 | the output folder after the saves; no contract of its own: `WrittenOverrides`, `UnsavedPathUnchanged` and `BatchIdempotent` state its properties |
| `Batch.WrittenStep` | images-process/tif2rgb.py:51 | one more event changes the folder only by its own save |
| `Batch.ConvertFolder` | images-process/tif2rgb.py:22-56 | the loop's log equals BatchLog of the listing, and the folder equals the existing folder with the logged saves applied in order |
| `Batch.BatchLogAppend` | images-process/tif2rgb.py:22-56 | the log of a concatenated listing is the concatenation of the logs |
| `Batch.SkippedNameLeavesNoTrace` | images-process/tif2rgb.py:22-23 | a non-".tif" entry adds no save and no error line anywhere in the listing |
| `Batch.FileIsolated` | images-process/tif2rgb.py:26-56 | a selected entry contributes exactly its own event, saved or failed, and the entries around it are processed as if it were absent |
| `Batch.LogFollowsSelection` | images-process/tif2rgb.py:22-56 | exactly one event per selected name, in listing order, each that name's own outcome |
| `Batch.LoggedEventsShape` | images-process/tif2rgb.py:23-50 | every event names a ".tif" entry of the listing; every save goes to the output path of its input, ending with "_RGB.jpg" |
| `Batch.WrittenOverrides` | images-process/tif2rgb.py:51 | applying the saves overrides the folder with the saved files, later saves winning |
| `Batch.UnsavedPathUnchanged` | images-process/tif2rgb.py:51-56 | a path that no event saved to keeps its previous content; a failed conversion writes nothing |
| `Batch.BatchIdempotent` | images-process/tif2rgb.py:22-56 | running the batch again over the same inputs leaves the output folder unchanged |

## Left out

- Raster decoding (`rasterio.open`, `src.read`) is a foreign library with file I/O. It is the oracle `Io.open`, which either fails or returns the bands.
- Pixel resampling and encoding (`Image.fromarray`, the Lanczos resize, JPEG `save`) are library calls with floating-point resampling and lossy encoding. The model calls `Io.resize(image, 256, 256)` and `Io.saveFails`. It therefore does not state that the thumbnail is 256×256; that is the resize library's promise.
- Whether `Image.fromarray` or the resize raises (lines 46-47) is the per-file oracle `Io.resizeFails`. It is keyed by the input name, not by the pixels, because a degenerate channel has no specified pixels. Which arrays or library versions make these calls raise is not modelled.
- A save that raises is assumed to write nothing (`Batch.UnsavedPathUnchanged`). Whether a failed JPEG save leaves a truncated file is up to the imaging library, and that library is not part of this model.
- The `print` diagnostics (lines 33-35, 53, 56) are console text only. A saved file or an error line is an `Event` in the log. The text of the lines, and the raw per-band minimum and maximum, are not modelled. The exception a zero-size band raises in `band.min()` is kept, as `ZeroSizeBand`.
- The output folder setup (`os.path.exists` / `os.makedirs`, lines 11-12) is filesystem I/O. The folder is a map passed in as `existing`.
- The listing order of `os.listdir` is unspecified. The listing is a parameter, and every result holds for any order.
- The scoped release of the raster handle (the `with` block) is not modelled.
- Bit-exact float64 rounding in the percentile and the rescale is not modelled: samples are exact reals. The `uint8` cast of NaN in the degenerate case is `Undefined`, with no value.
- NaN and ±inf samples are not modelled, because exact reals have none. In a float raster with a NaN nodata value, `np.percentile` returns NaN, so the whole channel becomes a cast of NaN. The model has no such band.
- `str.lower` is ASCII only; non-ASCII case folding is not modelled.
- Paths follow POSIX `os.path` (separator `/`). Windows path rules are not modelled.
- Bands may be ragged `seq<seq<real>>`, which is more general than numpy's rectangular arrays. The percentile flattens in row-major order, as numpy does with `axis=None`.
