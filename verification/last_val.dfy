/**
 * LastValDataset.__getitem__: one test image becomes a batch of 40 rasters,
 * the 8 D4 variants of each of the 5 crops of size 480, each slot stamped
 * with the image's manipulated flag.
 */
module LastVal {
  import opened Wrappers
  import opened Crops
  import Strings

  const CropCount: nat := 5
  const Variants: nat := 8
  const BatchSize: nat := CropCount * Variants
  const CropSize: nat := 480
  const ImageSide: nat := 512

  /** The manipulated flag: 1.0 when "manip" occurs in the path, 0.0 otherwise. */
  function ManipulatedFlag(path: string): (f: real)
    ensures f == 1.0 <==> Strings.Contains(path, "manip")
    ensures f == 0.0 <==> !Strings.Contains(path, "manip")
  {
    if Strings.Find(path, "manip") != -1 then 1.0 else 0.0
  }

  datatype ItemError = BadShape(h: nat, w: nat, c: nat)  // the assertion img.shape == (512, 512, 3) fails

  /** What __getitem__ returns: img_batch, manipulated_batch and the path. */
  datatype Batch<P> = Batch(images: array<Raster<P>>, manipulated: array<real>, idx: string)

  /**
   * __getitem__(item) for the image img read from ids[item]; d4 stands for
   * mytransforms._full_d4, which yields the 8 D4 variants of a crop, and zero
   * for the pixel np.zeros fills the preallocated batch with.
   * The ghost result writes counts, per slot, how often the loop wrote it.
   */
  method GetItem<P>(ids: seq<string>, item: nat, img: Raster<P>, d4: Raster<P> -> seq<Raster<P>>, zero: P)
    returns (r: Result<Batch<P>, ItemError>, ghost writes: seq<nat>)
    requires item < |ids|
    requires WellFormed(img)
    requires forall x :: |d4(x)| == Variants
    ensures r.Failure? <==> !(img.h == ImageSide && img.w == ImageSide && img.c == 3)
    ensures r.Failure? ==> r.error == BadShape(img.h, img.w, img.c)
    ensures r.Success? ==> FiveCrop(img, CropSize).Success?
    ensures r.Success? ==>
      var b := r.value;
      var crops := FiveCrop(img, CropSize).value;
      fresh(b.images) && fresh(b.manipulated) && b.idx == ids[item] &&
      b.images.Length == BatchSize && b.manipulated.Length == BatchSize &&
      (forall k, t :: 0 <= k < CropCount && 0 <= t < Variants ==> b.images[Variants * k + t] == d4(crops[k])[t]) &&
      (forall s :: 0 <= s < BatchSize ==> b.manipulated[s] == ManipulatedFlag(ids[item]))
    ensures r.Success? ==> |writes| == BatchSize && forall s :: 0 <= s < BatchSize ==> writes[s] == 1
  {
    var idx := ids[item];
    if !(img.h == ImageSide && img.w == ImageSide && img.c == 3) {
      return Failure(BadShape(img.h, img.w, img.c)), [];
    }
    var manipulated := ManipulatedFlag(idx);
    var fiveCrops;
    match FiveCrop(img, CropSize) {
      case Failure(_) => assert false;
      case Success(crops) => fiveCrops := crops;
    }
    assert forall k :: 0 <= k < CropCount ==> |d4(fiveCrops[k])| == Variants;
    var blank := Raster(CropSize, CropSize, 3, seq(CropSize, _ => seq(CropSize, _ => zero)));
    var imgBatch := new Raster<P>[BatchSize](_ => blank);
    var manipulatedBatch := new real[BatchSize](_ => 0.0);
    ghost var count;
    writes, count := FillBatch(fiveCrops, d4, manipulated, imgBatch, manipulatedBatch);
    r := Success(Batch(imgBatch, manipulatedBatch, idx));
  }

  /**
   * The loop of __getitem__: for each crop in order, for each of its D4
   * variants in order, write slot i and advance the counter i. The ghost
   * results are the per-slot write counts and the final value of i.
   */
  method FillBatch<P>(fiveCrops: seq<Raster<P>>, d4: Raster<P> -> seq<Raster<P>>, manipulated: real,
                      imgBatch: array<Raster<P>>, manipulatedBatch: array<real>)
    returns (ghost writes: seq<nat>, ghost count: nat)
    requires |fiveCrops| == CropCount
    requires forall k :: 0 <= k < CropCount ==> |d4(fiveCrops[k])| == Variants
    requires imgBatch.Length == BatchSize && manipulatedBatch.Length == BatchSize
    modifies imgBatch, manipulatedBatch
    ensures forall k, t :: 0 <= k < CropCount && 0 <= t < Variants ==> imgBatch[Variants * k + t] == d4(fiveCrops[k])[t]
    ensures forall s :: 0 <= s < BatchSize ==> manipulatedBatch[s] == manipulated
    ensures |writes| == BatchSize && forall s :: 0 <= s < BatchSize ==> writes[s] == 1
    ensures count == BatchSize
  {
    writes := seq(BatchSize, _ => 0);
    var i := 0;
    for k := 0 to |fiveCrops|
      invariant i == Variants * k
      invariant |writes| == BatchSize
      invariant forall s :: 0 <= s < i ==> writes[s] == 1
      invariant forall s :: i <= s < BatchSize ==> writes[s] == 0
      invariant forall s :: 0 <= s < i ==> imgBatch[s] == d4(fiveCrops[s / Variants])[s % Variants]
      invariant forall s :: 0 <= s < i ==> manipulatedBatch[s] == manipulated
    {
      var d4sOnCrop := d4(fiveCrops[k]);
      for t := 0 to |d4sOnCrop|
        invariant i == Variants * k + t
        invariant |writes| == BatchSize
        invariant forall s :: 0 <= s < i ==> writes[s] == 1
        invariant forall s :: i <= s < BatchSize ==> writes[s] == 0
        invariant forall s :: 0 <= s < i ==> imgBatch[s] == d4(fiveCrops[s / Variants])[s % Variants]
        invariant forall s :: 0 <= s < i ==> manipulatedBatch[s] == manipulated
      {
        imgBatch[i] := d4sOnCrop[t];
        manipulatedBatch[i] := manipulated;
        writes := writes[i := writes[i] + 1];
        i := i + 1;
      }
    }
    count := i;
    forall k, t | 0 <= k < CropCount && 0 <= t < Variants
      ensures imgBatch[Variants * k + t] == d4(fiveCrops[k])[t]
    {
      var s := Variants * k + t;
      assert s / Variants == k && s % Variants == t;
    }
  }
}
