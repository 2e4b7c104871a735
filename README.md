# Sentinel band processing — a verified model

This project models the raster-processing core of a small Sentinel-2 pipeline (`image_processing.py`):

- **Band selection.** `band_process` picks the band files at list positions 1, 2 and 3.
- **True-colour composite.** `band_write` writes those bands into a 3-band GeoTIFF. A counter starts at `BAND_COUNT` and goes down by one after each write, so the selection lands in reverse order: output band 1 is position 3 (red), band 2 is position 2 (green), band 3 is position 1 (blue).
- **Normalized-difference indices.** `ndvi_calc` and `ndwi_calc` compute `(nir - x) / (nir + x)` per pixel. A zero denominator gives NaN, not an error.
- **Index export.** `export_normalized_diff` writes the index as one float64 band, using the footprint of band B04.
- **Reported mean.** `ndvi` reports `nanmean` over layer 0 of the product.

Modules:

- `Raster` (`raster.dfy`): the band and footprint records, and the output raster.
  - `OutputRaster` is a class. Its bands are held in an array of `Option<Grid>`, and a ghost `log` records the band index of every successful write.
  - Its writes fail with `BandIndexOutOfRange` outside `1..count`, with `ShapeMismatch` when the grid does not fill the footprint, and with `DatasetClosed` after close.
  - `Create` fails with `InvalidMetadata` when the band count is below 1 or the height or width is 0.
- `TrueColor` (`true_color.dfy`): `band_process`, `band_write` and `rgb`, as methods with loops.
- `SpectralIndex` (`spectral_index.dfy`): the index formula, its NDVI and NDWI bindings, the export, and the `ndvi`/`ndwi` drivers.
- `Statistics` (`statistics.dfy`): `nanmean`.
- `Wrappers` (`wrappers.dfy`): `Option`, `Result` and `Outcome`.

Modelling choices:

- **Samples.** Samples are 16-bit unsigned integers (`Sample`), the pixel type of Sentinel-2 band files.
- **Index values.** An index pixel is an `Option<real>`: `None` is the NaN marker, and the division is exact real division.
- **Scene.** A scene is a `seq<Band>`: `scene[x]` is the band that the x-th listed file opens to.
- **Inputs instead of globals.** The module-level globals `b3`, `b4` and `b8` (list positions 2, 3 and 7) become parameters.

Behaviour of the code that the model makes explicit, and what it assumes:

- **Composite order.** The composite does not keep the selection order; it reverses it (`TrueColor.PlacementAt`).
- **Composite band count.** The band count is the constant `BAND_COUNT` (3), not the number of bands selected.
- **Index footprint.** Both index rasters copy their footprint from B04 (red), even NDWI, which does not read B04.
- **Index denominator.** The code adds the denominator in uint16, and the sum wraps (see Findings). The drivers use the widened formula; only `PixelAsWritten` and `GridAsWritten` follow the code as written.
- **Writer failures.** `image_processing.py` itself shows none of these checks. The model assumes that the raster writer raises:
  - for a band index outside 1..count;
  - for a grid that is not height × width;
  - for a write after close;
  - when a file is opened with a band count below 1 or a height or width of 0.

## Model

| member | source | states |
|---|---|---|
| `Raster.Create` | image_processing.py:37-45 | opening for write fails with InvalidMetadata exactly when the count is below 1 or the height or width is 0; otherwise a fresh raster with the given profile, open, every band unwritten |
| `Raster.OutputRaster.constructor` | image_processing.py:37-45 | a new output raster has the given profile, `count` unwritten bands and an empty write log |
| `Raster.OutputRaster.WriteBand` | image_processing.py:51 | writing band i succeeds exactly when the file is open, 1 <= i <= count and the grid fills the footprint; on success only band i changes and i is logged; otherwise the error says which check failed and nothing changes |
| `Raster.OutputRaster.WriteAll` | image_processing.py:112 | writing a whole stack succeeds exactly when the file is open and the stack has `count` layers that all fill the footprint; then layer k is band k + 1; a closed file gives DatasetClosed, any other failure ShapeMismatch, and a failure changes nothing |
| `Raster.OutputRaster.Close` | image_processing.py:54 | after close the raster is closed |
| `TrueColor.BandProcess` | image_processing.py:26-32 | succeeds exactly when the list has at least 4 entries; the result is the bands at positions 1, 2, 3 in that order; otherwise IndexError |
| `TrueColor.DescendingAt` | image_processing.py:47-52 | the counter's value at the k-th write (0-based) is BAND_COUNT - k |
| `TrueColor.DescendingCoversOnce` | image_processing.py:47-52 | over BAND_COUNT writes the counter takes every band index 1..BAND_COUNT exactly once and no other value |
| `TrueColor.CounterLeavesRange` | image_processing.py:47-52 | with more bands than BAND_COUNT, the counter reaches 0 at write number BAND_COUNT, which no band index allows |
| `TrueColor.PlacementAt` | image_processing.py:47-52 | after writing n <= BAND_COUNT bands, output band BAND_COUNT - k holds the k-th band and the lowest BAND_COUNT - n bands are unwritten |
| `TrueColor.PlacementFull` | image_processing.py:47-52 | with BAND_COUNT bands the composite is exactly the selection reversed |
| `TrueColor.BandWrite` | image_processing.py:36-54 | empty input raises IndexError; the composite copies footprint and dtype from bands[0] and has BAND_COUNT bands; the writes logged are the descending counter; the contents are the reversed placement of the bands written; success (and close) exactly when there are at most BAND_COUNT bands and all fill bands[0]'s footprint; otherwise it stops at the first failing write (index 0 or a shape mismatch), file left open |
| `TrueColor.Rgb` | image_processing.py:56-59 | succeeds exactly when the scene has 4 or more bands and positions 1..3 fit position 1's footprint, and so always on a scene of well-formed bands sharing one non-empty footprint; then output bands 1, 2, 3 hold scene positions 3, 2, 1, written in the order 3, 2, 1 |
| `TrueColor.ConsistentSceneComposes` | image_processing.py:37-52 | a scene of well-formed bands sharing one non-empty footprint meets every check of the composite write, and the composite's footprint is that footprint |
| `Statistics.NanMean` | image_processing.py:118 | the mean is NaN exactly when every pixel is NaN |
| `Statistics.DefinedRowAppend` | image_processing.py:118 | the defined values of a split row are those of the two parts, in order |
| `Statistics.DefinedAppend` | image_processing.py:118 | the defined values of a grid split into row blocks are those of the blocks, in order |
| `Statistics.DefinedCells` | image_processing.py:118 | a defined pixel contributes exactly its value, an undefined pixel nothing, a one-row grid its row; with the two Append lemmas this fixes which values the mean averages and how often each counts |
| `Statistics.SumAppend` | image_processing.py:118 | the sum of concatenated values is the sum of the sums |
| `Statistics.DefinedEmptyIff` | image_processing.py:118 | no value is defined exactly when every pixel is NaN |
| `Statistics.DefinedMembers` | image_processing.py:118 | the values nanmean averages are exactly the values of defined pixels; undefined pixels contribute nothing |
| `Statistics.MeanWithin` | image_processing.py:118 | if every defined pixel lies in [lo, hi], so does the mean |
| `Statistics.MeanUniform` | image_processing.py:118 | if some pixel is defined and every defined pixel equals v, the mean is v |
| `SpectralIndex.NormalizedDifference` | image_processing.py:86 | the pixel is NaN exactly when both samples are 0; otherwise value * (b + a) == b - a |
| `SpectralIndex.NormalizedDifferenceRange` | image_processing.py:86 | a defined index value lies in [-1, 1] |
| `SpectralIndex.NormalizedDifferenceAntisymmetric` | image_processing.py:86 | swapping the two samples negates the index; NaN stays NaN |
| `SpectralIndex.GridDifference` | image_processing.py:86 | the product has the inputs' shape and each pixel is the normalized difference of the two samples there |
| `SpectralIndex.GridDifferenceAntisymmetric` | image_processing.py:86 | swapping the two grids negates the whole product |
| `SpectralIndex.GridDifferenceRange` | image_processing.py:86 | every defined pixel of a product lies in [-1, 1] |
| `SpectralIndex.NdviCalc` | image_processing.py:81-88 | NDVI is one layer of the bands' shape; each pixel is the normalized difference of NIR and red, NaN exactly where both samples are 0 |
| `SpectralIndex.NdwiCalc` | image_processing.py:91-98 | NDWI is one layer of the bands' shape; each pixel is the normalized difference of NIR and green, NaN exactly where both samples are 0 |
| `SpectralIndex.NdviMeanWithin` | image_processing.py:116-118 | the reported NDVI mean, when defined, lies in [-1, 1] |
| `SpectralIndex.NdviMeanUndefinedIff` | image_processing.py:116-118 | the reported NDVI mean is NaN exactly when red and NIR are both 0 everywhere |
| `SpectralIndex.UniformBands` | image_processing.py:86-118 | for constant red a and NIR b, not both 0, every pixel and the mean equal (b - a) / (b + a) |
| `SpectralIndex.WrappedSum` | image_processing.py:86 | the uint16 sum is the true sum or the true sum minus 2^16 |
| `SpectralIndex.PixelAsWritten` | image_processing.py:86 | one pixel as written: finite exactly when the uint16-wrapped sum is non-zero, and then value * wrapped sum == b - a; NaN exactly when the wrapped sum is 0 and b == a; otherwise an infinity whose sign is that of b - a |
| `SpectralIndex.GridAsWritten` | image_processing.py:86 | the product as written has the inputs' shape, each pixel computed with a wrapping denominator |
| `SpectralIndex.AsWrittenAgreesWithoutWrap` | image_processing.py:86 | while b + a < 2^16 the pixel as written equals the widened formula (NaN for 0/0) |
| `SpectralIndex.GridAsWrittenAgreesWithoutWrap` | image_processing.py:86 | on a scene where no pixel sum reaches 2^16, the product as written equals the widened product |
| `SpectralIndex.AsWrittenLeavesRange` | image_processing.py:86 | NIR 40000, red 30000: as written gives 10000/4464 > 1, the widened formula 1/7 |
| `SpectralIndex.AsWrittenDividesByZero` | image_processing.py:86 | NIR 40000, red 25536: as written gives +infinity, the widened formula 14464/65536 |
| `SpectralIndex.ExportNormalizedDiff` | image_processing.py:102-112 | a one-band float64 raster with the reference band's footprint, always closed; the write succeeds exactly when the data is one layer that fills the footprint, and band 1 is then that layer; otherwise ShapeMismatch and band 1 stays unwritten |
| `SpectralIndex.Ndvi` | image_processing.py:115-119 | NDVI is exported with red's footprint; the export succeeds exactly when that footprint is non-empty and NIR fills it, and so always for well-formed bands sharing one footprint; on success band 1 is NDVI layer 0 and the printed mean is the nanmean of that layer; nothing is printed when the export raises |
| `SpectralIndex.Ndwi` | image_processing.py:122-126 | NDWI is exported with red's (B04) footprint; the export succeeds exactly when that footprint is non-empty and NIR fills it, and so always for well-formed bands sharing one footprint; on success band 1 is NDWI layer 0 |
| `SpectralIndex.ConsistentBandsSameShape` | image_processing.py:82-86 | two well-formed bands with one footprint have grids of the same shape, so the index computation applies to them |

## Left out

- `sentinel_query.py`: the country lookup over HTTP, the footprint GeoJSON, the catalogue query, the download, the unzip and the duplicate check are all network and file-system work.
- `get_file_names` (image_processing.py:17-22): the directory listing and `glob` order are taken as given. The band list is an input. Positions 1, 2, 3 and 7 mean blue, green, red and NIR only if the listing is sorted, and the code does not check that.
- Decoding and encoding of JPEG 2000 and GeoTIFF, drivers and output paths: a band is a record (footprint, dtype, pixels), and an output file is an `OutputRaster` object.
- Writer failures other than those listed above (missing directory, disk errors) and the on-disk visibility of a partial file are not modelled.
- The writer's checks (index range, shape, closed file, empty profile) are the assumed behaviour listed above, because the rasterio library is not part of this model.
- NdviCalc: computes with the intended widened denominator, not the uint16 wrap-around of image_processing.py:86 and :96; it agrees with the code only where no pixel sum reaches 2^16 (`SpectralIndex.GridAsWrittenAgreesWithoutWrap`).
- NdwiCalc: computes with the intended widened denominator, not the uint16 wrap-around of image_processing.py:86 and :96; it agrees with the code only where no pixel sum reaches 2^16 (`SpectralIndex.GridAsWrittenAgreesWithoutWrap`).
- Ndvi: computes with the intended widened denominator, not the uint16 wrap-around of image_processing.py:86 and :96; it agrees with the code only where no pixel sum reaches 2^16 (`SpectralIndex.GridAsWrittenAgreesWithoutWrap`).
- Ndwi: computes with the intended widened denominator, not the uint16 wrap-around of image_processing.py:86 and :96; it agrees with the code only where no pixel sum reaches 2^16 (`SpectralIndex.GridAsWrittenAgreesWithoutWrap`).
- NdviMeanWithin: computes with the intended widened denominator, not the uint16 wrap-around of image_processing.py:86 and :96; it agrees with the code only where no pixel sum reaches 2^16 (`SpectralIndex.GridAsWrittenAgreesWithoutWrap`).
- NdviMeanUndefinedIff: computes with the intended widened denominator, not the uint16 wrap-around of image_processing.py:86 and :96; it agrees with the code only where no pixel sum reaches 2^16 (`SpectralIndex.GridAsWrittenAgreesWithoutWrap`).
- UniformBands: computes with the intended widened denominator, not the uint16 wrap-around of image_processing.py:86 and :96; it agrees with the code only where no pixel sum reaches 2^16 (`SpectralIndex.GridAsWrittenAgreesWithoutWrap`).
- For example, with NIR 40000 and red 30000, `Ndvi` reports 1/7, where the code computes 10000/4464.
- Module-level eager opening of files (image_processing.py:62, 74-78, 128-129): the bands are parameters of `Rgb`, `Ndvi` and `Ndwi`.
- The `print` calls: `Ndvi` returns what it would print as a `Report`. The "Completed." lines are left out.
- The dead `np.zeros` initialisations (image_processing.py:85, 95) and the commented-out histogram (image_processing.py:131-140).
- IEEE-754 rounding in the division and in `nanmean`: values are exact reals, and NaN is `None`.
- `np.seterr(invalid='ignore')` (image_processing.py:71) only suppresses a warning. The NaN result it lets through is the `None` case of `NormalizedDifference`.
- NumPy broadcasting: `NdviCalc`, `NdwiCalc`, `Ndvi` and `Ndwi` require the two grids to have the same shape, as bands of one scene do.
- Multi-band source files: a band file has one layer, so `read(1)` and `read()` both return its pixels.
- Idempotence of the index computation is not stated as a lemma. Every index operation is a function, so repeated calls are equal by definition.

## Findings

| source | as written | input that shows it | evidently intended | confidence | as-written member | corrected member |
|---|---|---|---|---|---|---|
| image_processing.py:86 (same at :96) | numerator widened to float, but the denominator `nir + red` is added in the bands' uint16 type and wraps modulo 65536 | NIR 40000, red 30000 gives 10000/4464 (about 2.24, outside [-1, 1]); NIR 40000, red 25536 gives +infinity | both operands widened, so the denominator is the true sum and every defined value lies in [-1, 1] | not executed; medium (depends on the bands being uint16) | `SpectralIndex.AsWrittenLeavesRange` | `SpectralIndex.NormalizedDifferenceRange` |
