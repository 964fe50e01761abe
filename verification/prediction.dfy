/**
 * predict_on_test: for each test image, in the order of the sorted listing,
 * take the model's probability rows for its 40-slot batch, reduce them to one
 * row, pick the label by argmax, and accumulate the CSV rows and the
 * per-image and per-crop tables.
 */
module Prediction {
  import opened Wrappers
  import opened Strings
  import opened Naming
  import LastVal

  /** i is the first index of a largest entry of v: what np.argmax returns. */
  predicate IsFirstMax(v: seq<real>, i: int) {
    0 <= i < |v| &&
    (forall k :: 0 <= k < |v| ==> v[k] <= v[i]) &&
    (forall k :: 0 <= k < i ==> v[k] < v[i])
  }

  /** np.argmax over a non-empty vector. */
  function Argmax(v: seq<real>): (i: nat)
    requires |v| > 0
    ensures IsFirstMax(v, i)
  {
    if |v| == 1 then 0
    else
      var m := Argmax(v[..|v| - 1]);
      if v[|v| - 1] > v[m] then |v| - 1 else m
  }

  /** A vector has only one first-largest index. */
  lemma FirstMaxUnique(v: seq<real>, i: int, j: int)
    requires IsFirstMax(v, i) && IsFirstMax(v, j)
    ensures i == j
  {
    assert v[i] <= v[j] && v[j] <= v[i];
  }

  datatype PredictError =
    | NoPthInWeightsPath               // re.search found no match, so match.group(1) raises
    | BadImage(item: LastVal.ItemError)  // __getitem__'s shape assertion, re-raised by the loader
    | NotImplemented                   // a row count other than 1 and an ensembling other than "geometric"
    | EmptyArgmax                      // np.argmax of an empty row raises ValueError
    | ClassIndex(index: nat)           // utils.CLASSES[index] raises IndexError
    | NothingToStack                   // no image at all: np.append of preds, still None, raises ValueError
    | OneDimPreds                      // preds is the 1-D row of a single reduced image: np.append(..., axis=1) raises

  /** The per-image outcome: the reduced row, its argmax and the class name. */
  datatype Decision = Decision(row: seq<real>, classIdx: nat, className: string)

  /**
   * The arguments that stay fixed over the loop: the ensembling name, the
   * class list utils.CLASSES, and gmean, which stands for
   * scipy.stats.gmean(., axis=0) over the rows.
   */
  datatype Config = Config(ensembling: string, classNames: seq<string>, gmean: seq<seq<real>> -> seq<real>)

  /**
   * The ensembling dispatch: a single row is kept as it is; any other number
   * of rows (none included) goes through the ensembling branch, whether or
   * not TTA was requested, and only "geometric" is implemented.
   */
  function Reduce(prediction: seq<seq<real>>, cfg: Config): (r: Result<seq<real>, PredictError>)
    ensures r.Failure? <==> |prediction| != 1 && cfg.ensembling != "geometric"
    ensures r.Failure? ==> r.error == NotImplemented
    ensures |prediction| == 1 ==> r == Success(prediction[0])
    ensures |prediction| != 1 && cfg.ensembling == "geometric" ==> r == Success(cfg.gmean(prediction))
  {
    if |prediction| == 1 then Success(prediction[0])
    else if cfg.ensembling == "geometric" then Success(cfg.gmean(prediction))
    else Failure(NotImplemented)
  }

  /**
   * The decision for one image: NotImplemented when the dispatch raises, an
   * argmax error for an empty reduced row, and otherwise the first largest
   * entry of the row, whose class is named, or an IndexError when that index
   * is past the end of the class list.
   */
  function Decide(prediction: seq<seq<real>>, cfg: Config): (r: Result<Decision, PredictError>)
    ensures var red := Reduce(prediction, cfg);
      (red.Failure? ==> r == Failure(NotImplemented)) &&
      (red.Success? && red.value == [] ==> r == Failure(EmptyArgmax)) &&
      (red.Success? && red.value != [] ==>
        (r.Success? && r.value.row == red.value && IsFirstMax(red.value, r.value.classIdx) &&
         r.value.classIdx < |cfg.classNames| && r.value.className == cfg.classNames[r.value.classIdx]) ||
        (r.Failure? && r.error.ClassIndex? && IsFirstMax(red.value, r.error.index) && r.error.index >= |cfg.classNames|))
  {
    match Reduce(prediction, cfg)
    case Failure(e) => Failure(e)
    case Success(row) =>
      if row == [] then Failure(EmptyArgmax)
      else
        var i := Argmax(row);
        if i < |cfg.classNames| then Success(Decision(row, i, cfg.classNames[i]))
        else Failure(ClassIndex(i))
  }

  /**
   * Decide's outcome in each direction: NotImplemented exactly when the
   * dispatch raises, EmptyArgmax exactly for an empty reduced row, and for
   * the first largest index i of a non-empty row, the decision for class i
   * when the class list has it and ClassIndex(i) otherwise.
   */
  lemma DecideSpec(prediction: seq<seq<real>>, cfg: Config, i: int)
    ensures var r, red := Decide(prediction, cfg), Reduce(prediction, cfg);
      (r == Failure(NotImplemented) <==> red.Failure?) &&
      (r == Failure(EmptyArgmax) <==> red.Success? && red.value == []) &&
      (red.Success? && IsFirstMax(red.value, i) ==>
        (i < |cfg.classNames| ==> r == Success(Decision(red.value, i, cfg.classNames[i]))) &&
        (i >= |cfg.classNames| ==> r == Failure(ClassIndex(i))))
  {
    var r, red := Decide(prediction, cfg), Reduce(prediction, cfg);
    if red.Success? && IsFirstMax(red.value, i) {
      if r.Success? {
        FirstMaxUnique(red.value, i, r.value.classIdx);
      } else {
        FirstMaxUnique(red.value, i, r.error.index);
      }
    }
  }

  /**
   * A single row [0.7, 0.2, 0.1] over classes A, B, C gives A; forty rows with
   * an ensembling other than "geometric" raise, whatever use_tta says.
   */
  lemma DecideExamples(gmean: seq<seq<real>> -> seq<real>, rows: seq<seq<real>>)
    ensures Decide([[0.7, 0.2, 0.1]], Config("geometric", ["A", "B", "C"], gmean)) == Success(Decision([0.7, 0.2, 0.1], 0, "A"))
    ensures |rows| == 40 ==> Decide(rows, Config("mean", ["A", "B", "C"], gmean)) == Failure(NotImplemented)
  {
    assert IsFirstMax([0.7, 0.2, 0.1], 0);
    DecideSpec([[0.7, 0.2, 0.1]], Config("geometric", ["A", "B", "C"], gmean), 0);
  }

  /**
   * What the loader yields for one image: the model's softmax rows for its
   * batch, or the error __getitem__ raised while building the batch.
   */
  type Output = Result<seq<seq<real>>, LastVal.ItemError>

  /** The loop body's outcome for one image: the loader's error first, then the decision. */
  function Judge(output: Output, cfg: Config): Result<Decision, PredictError> {
    match output
    case Failure(e) => Failure(BadImage(e))
    case Success(prediction) => Decide(prediction, cfg)
  }

  /** The rows an image contributed, none when it failed to load. */
  function Rows(output: Output): seq<seq<real>> {
    if output.Success? then output.value else []
  }

  /** Rows stacked image after image, as repeated np.vstack does. */
  function StackRows(outputs: seq<Output>): (r: seq<seq<real>>)
    ensures outputs == [] ==> r == []
  {
    if outputs == [] then [] else StackRows(outputs[..|outputs| - 1]) + Rows(outputs[|outputs| - 1])
  }

  /** The per-crop names of all images, image after image. */
  function AllTtaNames(ids: seq<string>, outputs: seq<Output>): (r: seq<string>)
    requires |ids| == |outputs|
    ensures ids == [] ==> r == []
  {
    if ids == [] then []
    else AllTtaNames(ids[..|ids| - 1], outputs[..|ids| - 1])
         + TtaNames(LastSegment(ids[|ids| - 1]), |Rows(outputs[|ids| - 1])|)
  }

  const Header: seq<string> := ["fname", "camera"]

  /**
   * What the loop has accumulated: the CSV rows written, classes, names,
   * preds, tta_names and tta_preds. flat records numpy's shape of preds: it
   * is a 1-D array exactly while it holds the gmean row of a single image,
   * and 2-D once np.vstack has stacked it or when it started as a one-row
   * prediction.
   */
  datatype Acc = Acc(
    csvRows: seq<seq<string>>, classes: seq<nat>, names: seq<string>, preds: Option<seq<seq<real>>>,
    flat: bool, ttaNames: seq<string>, ttaPreds: Option<seq<seq<real>>>)

  /** The state after k images: the accumulators, how many images were decided, and the error raised, if any. */
  datatype Progress = Progress(acc: Acc, processed: nat, error: Option<PredictError>)

  /**
   * One pass of the loop body for the image at path idx. A loader error
   * raises before anything is touched; tta_names and tta_preds are extended
   * before the decision, and tta_preds is stacked when preds (not tta_preds)
   * is already set, as the source tests.
   */
  function Step(acc: Acc, idx: string, output: Output, cfg: Config): Result<Acc, PredictError>
    requires acc.preds.Some? ==> acc.ttaPreds.Some?
  {
    match Judge(output, cfg)
    case Failure(e) => Failure(e)
    case Success(d) =>
      var prediction := output.value;
      var ttaNames := acc.ttaNames + TtaNames(LastSegment(idx), |prediction|);
      var ttaPreds := if acc.preds.Some? then Some(acc.ttaPreds.value + prediction) else Some(prediction);
      Success(Acc(acc.csvRows + [[LastSegment(idx), d.className]], acc.classes + [d.classIdx],
                  acc.names + [LastSegment(idx)],
                  if acc.preds.Some? then Some(acc.preds.value + [d.row]) else Some([d.row]),
                  acc.preds.None? && |prediction| != 1,
                  ttaNames, ttaPreds))
  }

  /** The loop over the first n images; after an error nothing further happens. */
  function Run(ids: seq<string>, outputs: seq<Output>, cfg: Config, n: nat): (p: Progress)
    requires n <= |ids| == |outputs|
    ensures p.processed <= n
    ensures p.acc.preds.Some? <==> p.processed > 0
    ensures p.acc.ttaPreds.Some? <==> p.processed > 0
    ensures p.error.None? ==> p.processed == n
  {
    if n == 0 then Progress(Acc([Header], [], [], None, false, [], None), 0, None)
    else
      var p := Run(ids, outputs, cfg, n - 1);
      if p.error.Some? then p
      else match Step(p.acc, ids[n - 1], outputs[n - 1], cfg)
        case Failure(e) => Progress(p.acc, p.processed, Some(e))
        case Success(acc) => Progress(acc, n, None)
  }

  /** Once an image raised, later images change nothing. */
  lemma {:induction false} RunStaysFailed(ids: seq<string>, outputs: seq<Output>, cfg: Config, m: nat, n: nat)
    requires m <= n <= |ids| == |outputs|
    requires Run(ids, outputs, cfg, m).error.Some?
    ensures Run(ids, outputs, cfg, n) == Run(ids, outputs, cfg, m)
  {
    if n > m {
      RunStaysFailed(ids, outputs, cfg, m, n - 1);
    }
  }

  /** One CSV row, class and name per decided image, after the header. */
  lemma {:induction false} RunShape(ids: seq<string>, outputs: seq<Output>, cfg: Config, n: nat)
    requires n <= |ids| == |outputs|
    ensures var p := Run(ids, outputs, cfg, n);
      |p.acc.csvRows| == p.processed + 1 && p.acc.csvRows[0] == Header &&
      |p.acc.classes| == p.processed && |p.acc.names| == p.processed &&
      (p.acc.preds.Some? ==> |p.acc.preds.value| == p.processed)
  {
    if n > 0 {
      RunShape(ids, outputs, cfg, n - 1);
    }
  }

  /** preds is left 1-D exactly when one image has been decided and it had other than one row. */
  lemma {:induction false} RunFlat(ids: seq<string>, outputs: seq<Output>, cfg: Config, n: nat)
    requires n <= |ids| == |outputs|
    ensures var p := Run(ids, outputs, cfg, n);
      p.acc.flat <==> p.processed == 1 && outputs[0].Success? && |outputs[0].value| != 1
  {
    if n > 0 {
      RunFlat(ids, outputs, cfg, n - 1);
      var p := Run(ids, outputs, cfg, n - 1);
      if p.error.None? {
        var step := Step(p.acc, ids[n - 1], outputs[n - 1], cfg);
        if step.Success? {
          assert Run(ids, outputs, cfg, n) == Progress(step.value, n, None);
          assert step.value.flat == (p.acc.preds.None? && |outputs[n - 1].value| != 1);
        } else {
          assert Run(ids, outputs, cfg, n).acc == p.acc;
        }
      }
    }
  }

  /** Image k, at path idx, was decided as d: its CSV row, class index, name and reduced row are in place. */
  predicate Recorded(acc: Acc, k: nat, idx: string, d: Decision) {
    k + 1 < |acc.csvRows| && k < |acc.classes| && k < |acc.names| &&
    acc.csvRows[k + 1] == [LastSegment(idx), d.className] &&
    acc.classes[k] == d.classIdx && acc.names[k] == LastSegment(idx) &&
    acc.preds.Some? && k < |acc.preds.value| && acc.preds.value[k] == d.row
  }

  /**
   * Every image before the first failing one was loaded and decided, and
   * wrote the CSV row [basename, class name], its class index, its name and
   * its reduced row.
   */
  lemma {:induction false} RunDecided(ids: seq<string>, outputs: seq<Output>, cfg: Config, n: nat, k: nat)
    requires n <= |ids| == |outputs|
    requires k < Run(ids, outputs, cfg, n).processed
    ensures outputs[k].Success? && Decide(outputs[k].value, cfg).Success?
    ensures Recorded(Run(ids, outputs, cfg, n).acc, k, ids[k], Decide(outputs[k].value, cfg).value)
  {
    var p := Run(ids, outputs, cfg, n - 1);
    if p.error.Some? {
      assert Run(ids, outputs, cfg, n) == p;
      RunDecided(ids, outputs, cfg, n - 1, k);
      return;
    }
    var step := Step(p.acc, ids[n - 1], outputs[n - 1], cfg);
    if step.Failure? {
      assert Run(ids, outputs, cfg, n) == Progress(p.acc, n - 1, Some(step.error));
      RunDecided(ids, outputs, cfg, n - 1, k);
    } else {
      assert Run(ids, outputs, cfg, n) == Progress(step.value, n, None);
      if k < n - 1 {
        RunDecided(ids, outputs, cfg, n - 1, k);
        StepRecords(p.acc, ids[n - 1], outputs[n - 1], cfg, k, ids[k], Decide(outputs[k].value, cfg).value);
      } else {
        RunShape(ids, outputs, cfg, n - 1);
        StepRecordsNew(p.acc, ids[n - 1], outputs[n - 1], cfg);
      }
    }
  }

  /** A successful step keeps what an earlier image recorded. */
  lemma StepRecords(acc: Acc, idx: string, output: Output, cfg: Config, k: nat, idk: string, d: Decision)
    requires acc.preds.Some? ==> acc.ttaPreds.Some?
    requires Step(acc, idx, output, cfg).Success?
    requires Recorded(acc, k, idk, d)
    ensures Recorded(Step(acc, idx, output, cfg).value, k, idk, d)
  {
    StepAppends(acc, idx, output, cfg);
    RecordedKept(acc, Step(acc, idx, output, cfg).value, k, idk, d);
  }

  /** A successful step records its own image right after the images before it. */
  lemma StepRecordsNew(acc: Acc, idx: string, output: Output, cfg: Config)
    requires acc.preds.Some? ==> acc.ttaPreds.Some?
    requires Step(acc, idx, output, cfg).Success?
    requires |acc.csvRows| == |acc.classes| + 1 && |acc.names| == |acc.classes|
    requires acc.preds.Some? ==> |acc.preds.value| == |acc.classes|
    requires acc.preds.None? ==> acc.classes == []
    ensures output.Success? && Decide(output.value, cfg).Success?
    ensures Recorded(Step(acc, idx, output, cfg).value, |acc.classes|, idx, Decide(output.value, cfg).value)
  {
    StepAppends(acc, idx, output, cfg);
  }

  /** Appending to every table keeps what an earlier image recorded. */
  lemma RecordedKept(acc: Acc, next: Acc, k: nat, idx: string, d: Decision)
    requires Recorded(acc, k, idx, d)
    requires acc.csvRows <= next.csvRows && acc.classes <= next.classes && acc.names <= next.names
    requires next.preds.Some? && acc.preds.value <= next.preds.value
    ensures Recorded(next, k, idx, d)
  {
  }

  /** A successful step appends exactly one CSV row, class, name and reduced row. */
  lemma StepAppends(acc: Acc, idx: string, output: Output, cfg: Config)
    requires acc.preds.Some? ==> acc.ttaPreds.Some?
    requires Step(acc, idx, output, cfg).Success?
    ensures output.Success? && Decide(output.value, cfg).Success?
    ensures var next := Step(acc, idx, output, cfg).value;
      var d := Decide(output.value, cfg).value;
      next.csvRows == acc.csvRows + [[LastSegment(idx), d.className]] &&
      next.classes == acc.classes + [d.classIdx] &&
      next.names == acc.names + [LastSegment(idx)] &&
      next.preds == Some((if acc.preds.Some? then acc.preds.value else []) + [d.row])
  {
    var row := Decide(output.value, cfg).value.row;
    assert [] + [row] == [row];
  }

  /**
   * The run fails exactly at the first image that fails to load or whose
   * decision raises, with that image's error.
   */
  lemma {:induction false} RunFailsAtFirstError(ids: seq<string>, outputs: seq<Output>, cfg: Config, n: nat)
    requires n <= |ids| == |outputs|
    ensures var p := Run(ids, outputs, cfg, n);
      (p.error.Some? ==> p.processed < n && Judge(outputs[p.processed], cfg) == Failure(p.error.value)) &&
      (p.error.None? <==> forall k :: 0 <= k < n ==> Judge(outputs[k], cfg).Success?)
  {
    if n > 0 {
      RunFailsAtFirstError(ids, outputs, cfg, n - 1);
      var p := Run(ids, outputs, cfg, n - 1);
      if p.error.Some? {
        assert Run(ids, outputs, cfg, n) == p;
        assert !Judge(outputs[p.processed], cfg).Success?;
      } else {
        var d := Judge(outputs[n - 1], cfg);
        var step := Step(p.acc, ids[n - 1], outputs[n - 1], cfg);
        if d.Failure? {
          assert step == Failure(d.error);
          assert Run(ids, outputs, cfg, n) == Progress(p.acc, n - 1, Some(d.error));
        } else {
          assert step.Success?;
          assert Run(ids, outputs, cfg, n) == Progress(step.value, n, None);
        }
      }
    }
  }

  /** With no error, tta_names lists every image's per-crop names, image after image. */
  lemma {:induction false} RunTtaNames(ids: seq<string>, outputs: seq<Output>, cfg: Config, n: nat)
    requires n <= |ids| == |outputs|
    ensures var p := Run(ids, outputs, cfg, n);
      p.error.None? ==> p.acc.ttaNames == AllTtaNames(ids[..n], outputs[..n])
  {
    if n == 0 {
      assert ids[..0] == [];
      return;
    }
    var p := Run(ids, outputs, cfg, n - 1);
    var step := Step(p.acc, ids[n - 1], outputs[n - 1], cfg);
    if p.error.None? && step.Success? {
      RunTtaNames(ids, outputs, cfg, n - 1);
      AllTtaNamesStep(ids, outputs, n - 1);
      StepTta(p.acc, ids[n - 1], outputs[n - 1], cfg);
      assert Run(ids, outputs, cfg, n) == Progress(step.value, n, None);
    }
  }

  /** With no error, tta_preds stacks every raw prediction, image after image. */
  lemma {:induction false} RunTtaPreds(ids: seq<string>, outputs: seq<Output>, cfg: Config, n: nat)
    requires n <= |ids| == |outputs|
    ensures var p := Run(ids, outputs, cfg, n);
      p.error.None? && n > 0 ==> p.acc.ttaPreds == Some(StackRows(outputs[..n]))
  {
    if n == 0 {
      return;
    }
    var p := Run(ids, outputs, cfg, n - 1);
    var step := Step(p.acc, ids[n - 1], outputs[n - 1], cfg);
    if p.error.None? && step.Success? {
      RunTtaPreds(ids, outputs, cfg, n - 1);
      StackRowsStep(outputs, n - 1);
      StepTta(p.acc, ids[n - 1], outputs[n - 1], cfg);
      assert Run(ids, outputs, cfg, n) == Progress(step.value, n, None);
      if n == 1 {
        assert outputs[..0] == [];
      }
    }
  }

  /**
   * A successful step extends tta_names by the image's per-crop names and
   * tta_preds by its raw rows, starting tta_preds afresh when preds is unset.
   */
  lemma StepTta(acc: Acc, idx: string, output: Output, cfg: Config)
    requires acc.preds.Some? ==> acc.ttaPreds.Some?
    requires Step(acc, idx, output, cfg).Success?
    ensures output.Success?
    ensures var next := Step(acc, idx, output, cfg).value;
      next.ttaNames == acc.ttaNames + TtaNames(LastSegment(idx), |Rows(output)|) &&
      next.ttaPreds == Some((if acc.preds.Some? then acc.ttaPreds.value else []) + Rows(output))
  {
    assert [] + output.value == output.value;
  }

  lemma AllTtaNamesStep(ids: seq<string>, outputs: seq<Output>, k: nat)
    requires |ids| == |outputs| && k < |ids|
    ensures AllTtaNames(ids[..k + 1], outputs[..k + 1])
         == AllTtaNames(ids[..k], outputs[..k]) + TtaNames(LastSegment(ids[k]), |Rows(outputs[k])|)
  {
    assert ids[..k + 1][..k] == ids[..k] && outputs[..k + 1][..k] == outputs[..k];
  }

  lemma StackRowsStep(outputs: seq<Output>, k: nat)
    requires k < |outputs|
    ensures StackRows(outputs[..k + 1]) == StackRows(outputs[..k]) + Rows(outputs[k])
  {
    assert outputs[..k + 1][..k] == outputs[..k];
  }

  // ---------------------------------------------------------------------------
  // The per-image table: np.append(preds, names as a column, axis=1)

  /** One line of the per-image table: the reduced row and the image name in the fname column. */
  datatype TableRow = TableRow(probs: seq<real>, fname: string)

  /** The per-image table as intended: row k holds image k's reduced row and its name. */
  function ImageTable(preds: seq<seq<real>>, names: seq<string>): (r: seq<TableRow>)
    requires |preds| == |names|
    ensures |r| == |names|
    ensures forall k :: 0 <= k < |r| ==> r[k].probs == preds[k] && r[k].fname == names[k]
  {
    seq(|names|, k requires 0 <= k < |names| => TableRow(preds[k], names[k]))
  }

  /**
   * np.append(preds, names column, axis=1) as written: it raises when preds
   * was never set, and when preds is 1-D, since a 1-D and a 2-D array cannot
   * be joined along axis 1.
   */
  function AppendNames(preds: Option<seq<seq<real>>>, flat: bool, names: seq<string>): (r: Result<seq<TableRow>, PredictError>)
    requires preds.Some? ==> |preds.value| == |names|
    ensures r == Failure(NothingToStack) <==> preds.None?
    ensures r == Failure(OneDimPreds) <==> preds.Some? && flat
    ensures r.Success? ==> r == Success(ImageTable(preds.value, names))
  {
    if preds.None? then Failure(NothingToStack)
    else if flat then Failure(OneDimPreds)
    else Success(ImageTable(preds.value, names))
  }

  /**
   * A test folder holding one image, whose batch gives forty rows, is decided
   * without error, yet building its per-image table raises, although the
   * intended one-row table exists.
   */
  lemma OneImageTableFails()
    ensures var outputs: seq<Output> := [Success(seq(40, _ => [0.5]))];
      var cfg := Config("geometric", ["A"], _ => [1.0]);
      var p := Run(["test/a.tif"], outputs, cfg, 1);
      p.error.None? && p.processed == 1 && p.acc.preds.Some? && |p.acc.preds.value| == |p.acc.names| &&
      AppendNames(p.acc.preds, p.acc.flat, p.acc.names) == Failure(OneDimPreds) &&
      ImageTable(p.acc.preds.value, p.acc.names) == [TableRow([1.0], "a.tif")]
  {
    var outputs: seq<Output> := [Success(seq(40, _ => [0.5]))];
    var cfg := Config("geometric", ["A"], _ => [1.0]);
    assert Reduce(outputs[0].value, cfg) == Success([1.0]);
    assert Decide(outputs[0].value, cfg) == Success(Decision([1.0], 0, "A"));
    LastSegmentAfterSlash("test/a.tif", 5);
    assert "test/a.tif"[5..] == "a.tif";
    var p := Run(["test/a.tif"], outputs, cfg, 1);
    RunShape(["test/a.tif"], outputs, cfg, 1);
    RunDecided(["test/a.tif"], outputs, cfg, 1, 0);
  }

  /**
   * The table as intended: whenever the as-written np.append succeeds it
   * builds that table, and for any run that decided at least one image,
   * every decided image has its row at its own position.
   */
  lemma ImageTableOfRun(ids: seq<string>, outputs: seq<Output>, cfg: Config, n: nat, k: nat)
    requires n <= |ids| == |outputs|
    requires k < Run(ids, outputs, cfg, n).processed
    ensures var acc := Run(ids, outputs, cfg, n).acc;
      acc.preds.Some? && |acc.preds.value| == |acc.names| &&
      (AppendNames(acc.preds, acc.flat, acc.names).Success? ==>
         AppendNames(acc.preds, acc.flat, acc.names).value == ImageTable(acc.preds.value, acc.names)) &&
      k < |ImageTable(acc.preds.value, acc.names)| &&
      outputs[k].Success? && Decide(outputs[k].value, cfg).Success? &&
      ImageTable(acc.preds.value, acc.names)[k] == TableRow(Decide(outputs[k].value, cfg).value.row, LastSegment(ids[k]))
  {
    RunShape(ids, outputs, cfg, n);
    RunDecided(ids, outputs, cfg, n, k);
  }

  // ---------------------------------------------------------------------------
  // predict_on_test

  /** The tables predict_on_test ends with: model and CSV names, the accumulators and the per-image table. */
  datatype Tables = Tables(modelName: string, csvName: string, acc: Acc, table: seq<TableRow>)

  /**
   * predict_on_test over the sorted image paths ids, where outputs[k] is the
   * softmax output of the model for the batch of ids[k], or the error its
   * __getitem__ raised. csvRows are the rows written to the submission file,
   * a header first; when an image raises, the rows of the images before it
   * have already been written, and processed is the number of images decided.
   */
  method PredictOnTest(weightsPath: string, ids: seq<string>, outputs: seq<Output>, useTta: bool, cfg: Config)
    returns (r: Result<Tables, PredictError>, csvRows: seq<seq<string>>, processed: nat)
    requires |outputs| == |ids|
    ensures ModelName(weightsPath, useTta, cfg.ensembling).Failure? ==>
      r == Failure(NoPthInWeightsPath) && csvRows == [] && processed == 0
    ensures ModelName(weightsPath, useTta, cfg.ensembling).Success? ==>
      var p, name := Run(ids, outputs, cfg, |ids|), ModelName(weightsPath, useTta, cfg.ensembling).value;
      csvRows == p.acc.csvRows && processed == p.processed &&
      (p.error.Some? ==> r == Failure(p.error.value)) &&
      (p.error.None? && |ids| == 0 ==> r == Failure(NothingToStack)) &&
      (p.error.None? && |ids| == 1 && outputs[0].Success? && |outputs[0].value| != 1 ==> r == Failure(OneDimPreds)) &&
      (p.error.None? && (|ids| > 1 || (|ids| == 1 && outputs[0].Success? && |outputs[0].value| == 1)) ==>
        r.Success? && r.value.modelName == name && r.value.csvName == "submit/submission_" + name + ".csv" &&
        r.value.acc == p.acc && p.acc.preds.Some? && |p.acc.preds.value| == |p.acc.names| &&
        r.value.table == ImageTable(p.acc.preds.value, p.acc.names))
  {
    var modelName;
    match ModelName(weightsPath, useTta, cfg.ensembling) {
      case Failure(_) => return Failure(NoPthInWeightsPath), [], 0;
      case Success(name) => modelName := name;
    }
    var csvName := "submit/submission_" + modelName + ".csv";
    csvRows := [Header];
    var classes: seq<nat> := [];
    var preds: Option<seq<seq<real>>> := None;
    var flat := false;
    var names: seq<string> := [];
    var ttaPreds: Option<seq<seq<real>>> := None;
    var ttaNames: seq<string> := [];

    var k := 0;
    while k < |ids|
      invariant k <= |ids|
      invariant Run(ids, outputs, cfg, k) == Progress(Acc(csvRows, classes, names, preds, flat, ttaNames, ttaPreds), k, None)
    {
      var idx := ids[k];
      if outputs[k].Failure? {
        RunStaysFailed(ids, outputs, cfg, k + 1, |ids|);
        return Failure(BadImage(outputs[k].error)), csvRows, k;
      }
      var prediction := outputs[k].value;
      ttaNames := ttaNames + TtaNames(LastSegment(idx), |prediction|);
      ttaPreds := if preds.Some? then Some(ttaPreds.value + prediction) else Some(prediction);
      var decision := Decide(prediction, cfg);
      if decision.Failure? {
        RunStaysFailed(ids, outputs, cfg, k + 1, |ids|);
        return Failure(decision.error), csvRows, k;
      }
      csvRows := csvRows + [[LastSegment(idx), decision.value.className]];
      classes := classes + [decision.value.classIdx];
      names := names + [LastSegment(idx)];
      flat := preds.None? && |prediction| != 1;
      preds := if preds.Some? then Some(preds.value + [decision.value.row]) else Some([decision.value.row]);
      k := k + 1;
    }
    processed := k;
    RunShape(ids, outputs, cfg, k);
    RunFlat(ids, outputs, cfg, k);
    match AppendNames(preds, flat, names) {
      case Failure(e) => return Failure(e), csvRows, processed;
      case Success(table) =>
        r := Success(Tables(modelName, csvName, Acc(csvRows, classes, names, preds, flat, ttaNames, ttaPreds), table));
    }
  }
}
