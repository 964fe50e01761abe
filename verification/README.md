# Test-time prediction core of the camera-model pipeline

This project models the test-time core of `src/pipeline/core/test_core.py`, which predicts the camera model of each test image. It covers three parts:

- **Crop geometry.** `OpenCVCenterCrop.get_params` computes the centre offset, with Python 3's round-half-to-even. `OpenCVCropBase.__call__` slices the window, and `_five_crop` returns the four corner windows and the centre window, or raises on a bad channel count or an oversized crop. Images are `Raster`s of opaque pixels. Slicing follows numpy's rules, so negative bounds count from the end and out-of-range bounds are clamped.
- **One test batch.** `LastValDataset.__getitem__` checks the 512 x 512 x 3 shape and stamps the `manip` flag (`str.find`). It then fills the 40 slots of the batch from the 8 D4 variants of each of the 5 crops of size 480. The batch arrays are Dafny `array`s, and the nested loop is an imperative method that is proved against a specification.
- **The prediction loop.** `predict_on_test` has four parts:
  - the model name, group 1 of `re.search(r'([^/]*)\.pth', weights_path)` with the TTA suffix;
  - the CSV name;
  - the per-image loop: the loader's shape error, the `_tta{i}` names, the stacking of `tta_preds`, the ensembling dispatch, `np.argmax`, the class lookup, the CSV rows and the `classes`/`names`/`preds` tables;
  - the per-image table built by `np.append(preds, names, axis=1)`, including numpy's 1-D/2-D shape of `preds`.

  The loop is a method whose invariant ties its variables to the specification function `Prediction.Run`. The loop's properties are proved about `Run` by induction.

Modules: `Wrappers` (Option/Result), `Crops`, `Strings` (`str.find`, `split('/')[-1]`, `str(i)`), `Naming`, `LastVal` and `Prediction`.

Four behaviours of the code are easy to misread:

- **Ensembling.** The branch runs whenever an image's row count is anything other than 1 (`prediction.shape[0] != 1`), zero rows included, whatever `use_tta` says. `Prediction.Reduce` models exactly that.
- **Model name.** It comes from the first `/`-free stretch of the weights path that holds `.pth`, not from the file name. Inside that stretch, `[^/]*` is greedy up to its last `.pth`. `Naming.ModelNameFirstSegment` and `Naming.ModelNameGreedyGroup` show the two effects.
- **Stacking `tta_preds`.** The test for whether to stack looks at `preds`, not at `tta_preds`.
- **`crop_size`.** This parameter of `predict_on_test` is never used.

## Model

| member | source | states |
|---|---|---|
| Crops.Window | src/pipeline/core/test_core.py:26-28 | the slice `img[i:i+size, j:j+size]`, when it lies inside the image, is the size x size piece whose pixel (a, b) is the image's pixel (i+a, j+b) |
| Crops.RoundHalf | src/pipeline/core/test_core.py:40-41 | `round(d/2.)`: 2r lies within 1 of d, and a tie goes to the even neighbour |
| Crops.CenterOffset | src/pipeline/core/test_core.py:35-42 | get_params returns (0, 0) for an image of exactly the crop size; otherwise the window's centre lies within half a pixel of the image's centre on each axis (the margins before and after the window differ by at most one pixel), and the window fits inside the image |
| Crops.CenterOffsetShortCutAgrees | src/pipeline/core/test_core.py:37-41 | the early return for a size x size image gives what the rounding formula gives |
| Crops.CenterOffsetUnique | src/pipeline/core/test_core.py:40-41 | "within one pixel of centred, ties to even" determines the offset uniquely, so it is exactly what `RoundHalf` computes |
| Crops.CenterOffsetExamples | src/pipeline/core/test_core.py:35-42 | a 512 x 512 image cropped to 480 gets offset (16, 16); odd margins 1, 5, 3, 7 give 0, 2, 2, 4 |
| Crops.CenterCrop | src/pipeline/core/test_core.py:26-28 | `OpenCVCenterCrop(size)(img)` is the size x size window at the get_params offset |
| Crops.FiveCrop | src/pipeline/core/test_core.py:45-56 | fails with the channel error exactly when c != 3, with the size error exactly when c == 3 and size exceeds h or w, and otherwise returns five crops |
| Crops.FiveCropWindows | src/pipeline/core/test_core.py:51-55 | the five crops are, in order, the size x size windows at (0,0), (0,w-size), (h-size,0), (h-size,w-size) and the centre offset |
| Crops.CornersCover | src/pipeline/core/test_core.py:51-54 | when size is at least half of each side, every pixel of the image appears in the corner window for its top/bottom and left/right band |
| Strings.Find | src/pipeline/core/test_core.py:81 | `str.find`: the lowest index where the pattern occurs, and -1 exactly when it does not occur |
| Strings.LastSegment | src/pipeline/core/test_core.py:134 | `split('/')[-1]`: a suffix of the path containing no '/', preceded by '/' unless it is the whole path |
| Strings.LastSegmentAfterSlash | src/pipeline/core/test_core.py:134 | when the last '/' of a path is at n - 1, `split('/')[-1]` is everything after it |
| Strings.NatToString | src/pipeline/core/test_core.py:134 | `str(i)`: a non-empty run of decimal digits without a leading zero |
| Strings.NatToStringRoundTrip | src/pipeline/core/test_core.py:134 | reading back the decimal text of i gives i |
| Strings.NatToStringInjective | src/pipeline/core/test_core.py:134 | different indices print differently |
| Naming.PthSearch | src/pipeline/core/test_core.py:112 | `re.search` semantics: the match found has the smallest start of any match, its group is the longest from that start, and None means no match exists at all |
| Naming.ModelName | src/pipeline/core/test_core.py:112-113 | fails exactly when no `([^/]*)\.pth` match exists; otherwise the name is group 1 of the leftmost, longest match that `PthSearch` finds, followed by `_tta_` + ensembling under TTA and by nothing otherwise; without TTA it has no '/' |
| Naming.ModelNameOfWeightsFile | src/pipeline/core/test_core.py:112-113 | for `dir/base.pth`, where dir holds no `.pth` and base has no '/', the model name is base plus the TTA suffix |
| Naming.ModelNameFirstSegment | src/pipeline/core/test_core.py:112-113 | `a.pth/b.pth` names the model `a`: the first segment holding `.pth` wins |
| Naming.ModelNameGreedyGroup | src/pipeline/core/test_core.py:112-113 | `w/x.pth.pth` with TTA gives `x.pth_tta_geometric`: the group runs to the segment's last `.pth` |
| Naming.TtaNames | src/pipeline/core/test_core.py:134 | one per-crop name per prediction row |
| Naming.TtaNameParts | src/pipeline/core/test_core.py:134 | the i-th per-crop name is the image name, then `_tta`, then exactly `str(i)`, whose digits read back as i |
| Naming.TtaNamesDistinct | src/pipeline/core/test_core.py:134 | no two crops of one image share a name |
| LastVal.ManipulatedFlag | src/pipeline/core/test_core.py:81 | the flag is 1.0 exactly when "manip" occurs in the path, and 0.0 otherwise |
| LastVal.GetItem | src/pipeline/core/test_core.py:73-97 | fails exactly when the shape is not (512, 512, 3), reporting that shape; otherwise two fresh 40-slot arrays whose slot 8k+t is the t-th D4 variant of crop k of `_five_crop(img, 480)`, every flag slot holds the image's flag, and the path is returned |
| LastVal.FillBatch | src/pipeline/core/test_core.py:87-96 | the nested loop writes slot 8k+t with variant t of crop k and stamps every slot with the flag; each slot is written exactly once and the counter ends at 40 |
| Prediction.Argmax | src/pipeline/core/test_core.py:142 | `np.argmax`: the first index of a largest entry |
| Prediction.FirstMaxUnique | src/pipeline/core/test_core.py:142 | that index is unique |
| Prediction.Reduce | src/pipeline/core/test_core.py:136-140 | a single row is kept as it is; any other row count gives gmean under "geometric" and NotImplementedError otherwise, whatever use_tta says |
| Prediction.Decide | src/pipeline/core/test_core.py:136-144 | NotImplementedError when the dispatch raises; the argmax error for an empty reduced row; otherwise either the decision whose index is a first largest entry of the reduced row and whose name is the class list's entry there, or IndexError with a first largest index past the class list |
| Prediction.DecideSpec | src/pipeline/core/test_core.py:136-144 | in both directions: NotImplementedError exactly when the dispatch raises, the argmax error exactly for an empty reduced row, and for the first largest index i, the decision for class i when the class list has it and IndexError(i) otherwise |
| Prediction.DecideExamples | src/pipeline/core/test_core.py:136-144 | one row [0.7, 0.2, 0.1] over A, B, C gives A; forty rows under "mean" raise NotImplementedError |
| Prediction.Run | src/pipeline/core/test_core.py:127-148 | the loop over the first n images: it stops at the first error (a loader error or a decision error), and `preds`/`tta_preds` are set exactly once an image has been decided |
| Prediction.RunStaysFailed | src/pipeline/core/test_core.py:127-148 | once an image raises, later images change nothing |
| Prediction.RunShape | src/pipeline/core/test_core.py:120-148 | the header comes first, then one CSV row, class, name and `preds` row per decided image |
| Prediction.RunFlat | src/pipeline/core/test_core.py:138-148 | `preds` is a 1-D array exactly when one image has been decided and its prediction had a row count other than 1 |
| Prediction.RunDecided | src/pipeline/core/test_core.py:127-148 | every image before the first failure was loaded and decided; its CSV row is [basename, class name], and its class index, name and reduced row are stored at its position |
| Prediction.StepAppends | src/pipeline/core/test_core.py:144-148 | a decided image appends exactly one CSV row, class, name and `preds` row |
| Prediction.RunFailsAtFirstError | src/pipeline/core/test_core.py:127-148 | the run fails at the first image that fails to load or whose decision raises, with that image's error; it succeeds exactly when every image loads and decides |
| Prediction.RunTtaNames | src/pipeline/core/test_core.py:134 | with no error, `tta_names` lists every image's per-crop names in order |
| Prediction.RunTtaPreds | src/pipeline/core/test_core.py:135 | with no error, `tta_preds` stacks every raw prediction in order |
| Prediction.StepTta | src/pipeline/core/test_core.py:134-135 | one image extends `tta_names` by its per-crop names and `tta_preds` by its raw rows, starting afresh while `preds` is unset |
| Prediction.ImageTable | src/pipeline/core/test_core.py:150 | the intended per-image table: row k holds image k's reduced row and its name |
| Prediction.AppendNames | src/pipeline/core/test_core.py:150 | `np.append(preds, names column, axis=1)`: ValueError exactly when `preds` is None or 1-D, and otherwise the per-image table |
| Prediction.ImageTableOfRun | src/pipeline/core/test_core.py:142-150 | when `np.append` succeeds it builds the intended table, whose row k is decided image k's reduced row and base name |
| Prediction.OneImageTableFails | src/pipeline/core/test_core.py:138-150 | one image with a 40-row batch is decided without error, yet `np.append` raises, although the intended one-row table exists |
| Prediction.PredictOnTest | src/pipeline/core/test_core.py:100-150 | no `.pth` match raises before any CSV row; otherwise the rows written, the images processed and the loop's error are those of `Run`; after the loop, an empty folder raises, a single image with a row count other than 1 raises, and otherwise the result holds the model name, `submit/submission_<name>.csv`, the accumulators and the per-image table |

## Left out

- File and process I/O is not modelled. This covers the `glob`/`sort` listing of the test folder, `PIL` image loading, opening and writing the CSV file, `os.makedirs`, the HDF5/pandas tables, `print`, `tqdm` and `utils.print_distribution`. The sorted path list is a parameter, the image is a parameter, and the CSV output is the sequence of rows.
- The model forward pass, `softmax` and `train_utils.variable` are not modelled. What the loader yields for each image is a parameter: the softmax rows, or the shape error `__getitem__` raised. The parameter shares its error type with `LastVal.GetItem`, but no proof links it to that method.
- `scipy.stats.gmean` is a parameter, because it is floating point. `mytransforms._full_d4` is also a parameter, a function assumed to give 8 variants of a crop.
- Floating point is not modelled: probabilities are reals, and `np.argmax` on NaN is not covered. The `float32` casts and copies of `__getitem__` are identities here. `(h - th) / 2.` is taken as exact, which it is for any realistic image size.
- Array shapes are modelled only as far as `preds` being 1-D or 2-D. A row-width mismatch between images, which would make `np.vstack` raise, is not modelled.
- Negative crop sizes are excluded by the type `nat`.
- `LastValDataset.__len__` (the length of the path list) and the `DataLoader` batching, workers and pinned memory are not modelled.
- `_get_res50_feats` is not modelled. It is unused by the prediction path.
- `utils.CLASSES` is a parameter of the model. `utils` is not part of this model.
- The names of the HDF5 output files are not modelled. They are built from the model name in the same way as the CSV name.
- Prediction.PredictOnTest: does not model the ValueError that `pd.DataFrame(..., columns=utils.CLASSES + ['fname'])` raises at test_core.py:151 and :156 when the probability rows are not `len(utils.CLASSES)` wide. The model returns `Success` with the table whenever every argmax lies inside the class list, whatever the row width.
- Prediction.PredictOnTest: on an error raised inside the loop, only the CSV rows already written are returned. Python also extends `tta_names`/`tta_preds` for the failing image, but the exception discards those lists.

## Findings

| source | as written | input that shows it | evidently intended | confidence | as-written member | corrected member |
|---|---|---|---|---|---|---|
| src/pipeline/core/test_core.py:138-150 | for the first image, `preds = prediction` keeps gmean's 1-D row; with only one image it is never stacked, and `np.append(preds, names column, axis=1)` raises ValueError after the CSV row is written | a test folder with one `.tif` whose 40-row batch is reduced by `"geometric"` | the per-image table holds one row per decided image, as it does for two or more images | not executed | Prediction.OneImageTableFails | Prediction.ImageTableOfRun |

`Prediction.PredictOnTest` keeps the as-written behaviour, so it fails with `OneDimPreds`. `Prediction.ImageTable` is the intended table. `Prediction.ImageTableOfRun` proves that the table has a row for every decided image, and that it is what `np.append` builds whenever `np.append` succeeds.
