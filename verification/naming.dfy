/**
 * Names used by predict_on_test: the model name taken from the weights path
 * with re.search(r'([^/]*)\.pth', ...), the per-image name and the per-crop
 * names basename + "_tta" + str(i).
 */
module Naming {
  import opened Wrappers
  import opened Strings

  /** The literal ".pth" occurs at index q. */
  predicate PthTag(s: string, q: int) {
    0 <= q && q + 4 <= |s| && s[q..q + 4] == ".pth"
  }

  /** ([^/]*)\.pth matches s from p, with group 1 being s[p..q]. */
  predicate PthAt(s: string, p: int, q: int) {
    0 <= p <= q && PthTag(s, q) && forall k :: p <= k < q ==> s[k] != '/'
  }

  /** The end of the '/'-free run starting at p: the next '/' or the end of s. */
  function SegmentEnd(s: string, p: nat): (e: nat)
    requires p <= |s|
    ensures p <= e <= |s|
    ensures e < |s| ==> s[e] == '/'
    ensures forall k :: p <= k < e ==> s[k] != '/'
    decreases |s| - p
  {
    if p == |s| || s[p] == '/' then p else SegmentEnd(s, p + 1)
  }

  /** The last ".pth" lying wholly in s[p..e]. */
  function LastPthIn(s: string, p: nat, e: nat): (r: Option<nat>)
    requires p <= e <= |s|
    ensures r.Some? ==> p <= r.value && r.value + 4 <= e && PthTag(s, r.value)
    ensures r.Some? ==> forall q :: r.value < q && q + 4 <= e ==> !PthTag(s, q)
    ensures r.None? ==> forall q :: p <= q && q + 4 <= e ==> !PthTag(s, q)
    decreases e
  {
    if e < p + 4 then None
    else if s[e - 4..e] == ".pth" then Some(e - 4)
    else LastPthIn(s, p, e - 1)
  }

  /**
   * re.search from a segment start: the regex engine tries start positions
   * left to right, and at the first one that matches, [^/]* is greedy, so
   * group 1 runs to the last ".pth" before the next '/'.
   * The result (p, q) is the match's start and the end of group 1.
   */
  function PthSearch(s: string, start: nat): (r: Option<(nat, nat)>)
    requires start <= |s|
    requires start == 0 || s[start - 1] == '/'
    ensures r.Some? ==> start <= r.value.0 && PthAt(s, r.value.0, r.value.1)
    ensures r.Some? ==> forall p, q :: start <= p < r.value.0 ==> !PthAt(s, p, q)
    ensures r.Some? ==> forall q :: PthAt(s, r.value.0, q) ==> q <= r.value.1
    ensures r.None? ==> forall p, q :: start <= p ==> !PthAt(s, p, q)
    decreases |s| - start
  {
    var e := SegmentEnd(s, start);
    NoMatchAcrossSlash(s, start, e);
    match LastPthIn(s, start, e)
    case Some(q) => Some((start, q))
    case None =>
      if e == |s| then None
      else
        var r := PthSearch(s, e + 1);
        NoMatchBefore(s, start, e, r);
        r
  }

  /** The characters of a ".pth" are not '/'. */
  lemma PthTagHasNoSlash(s: string, q: int)
    requires PthTag(s, q)
    ensures forall k :: q <= k < q + 4 ==> s[k] != '/'
  {
    forall k | q <= k < q + 4 ensures s[k] != '/' {
      assert s[k] == s[q..q + 4][k - q];
    }
  }

  /** Every match starting in the '/'-free run s[start..e] ends within it. */
  lemma NoMatchAcrossSlash(s: string, start: nat, e: nat)
    requires start <= e <= |s| && (e < |s| ==> s[e] == '/')
    requires forall k :: start <= k < e ==> s[k] != '/'
    ensures forall p, q :: start <= p <= e && PthAt(s, p, q) ==> q + 4 <= e
  {
    forall q | PthTag(s, q) ensures forall k :: q <= k < q + 4 ==> s[k] != '/' {
      PthTagHasNoSlash(s, q);
    }
  }

  /** When the run s[start..e] holds no ".pth", no match starts before e + 1. */
  lemma NoMatchBefore(s: string, start: nat, e: nat, r: Option<(nat, nat)>)
    requires start <= e < |s| && s[e] == '/'
    requires forall p, q :: start <= p <= e && PthAt(s, p, q) ==> q + 4 <= e
    requires forall q :: start <= q && q + 4 <= e ==> !PthTag(s, q)
    requires r.Some? ==> e + 1 <= r.value.0
    ensures forall p, q :: start <= p <= e ==> !PthAt(s, p, q)
  {
  }

  datatype NameError = NoPthMatch  // match is None, so match.group(1) raises

  /** model_name: group 1 of the weights path, with "_tta_" + ensembling appended only under TTA. */
  function ModelName(weightsPath: string, useTta: bool, ensembling: string): (r: Result<string, NameError>)
    ensures r.Failure? <==> forall p, q :: !PthAt(weightsPath, p, q)
    ensures r.Success? ==>
      (PthSearch(weightsPath, 0).Some? &&
       var (p, q) := PthSearch(weightsPath, 0).value;
       r.value == weightsPath[p..q] + (if useTta then "_tta_" + ensembling else ""))
    ensures r.Success? && useTta ==> |r.value| >= 5 + |ensembling| && r.value[|r.value| - |ensembling| - 5..] == "_tta_" + ensembling
    ensures r.Success? && !useTta ==> '/' !in r.value
  {
    match PthSearch(weightsPath, 0)
    case None => Failure(NoPthMatch)
    case Some((p, q)) =>
      assert forall k :: 0 <= k < q - p ==> weightsPath[p..q][k] == weightsPath[p + k];
      Success(weightsPath[p..q] + (if useTta then "_tta_" + ensembling else ""))
  }

  /**
   * For the usual weights path, a directory part free of ".pth" followed by
   * base + ".pth" with no '/' in base, the model name is base (plus the TTA
   * suffix).
   */
  lemma ModelNameOfWeightsFile(dir: string, base: string, useTta: bool, ensembling: string)
    requires dir == [] || dir[|dir| - 1] == '/'
    requires forall q :: !PthTag(dir, q)
    requires '/' !in base
    ensures ModelName(dir + base + ".pth", useTta, ensembling) == Success(base + (if useTta then "_tta_" + ensembling else ""))
  {
    var s := dir + base + ".pth";
    var n := |dir|;
    assert s[n + |base|..n + |base| + 4] == ".pth";
    assert PthAt(s, n, n + |base|);
    NoMatchInDirectory(dir, base);
    var r := PthSearch(s, 0);
    assert r.value.0 == n && r.value.1 == n + |base|;
    assert s[n..n + |base|] == base;
  }

  /** The match is taken in the first '/'-free segment holding ".pth", not the last one. */
  lemma ModelNameFirstSegment()
    ensures ModelName("a.pth/b.pth", false, "geometric") == Success("a")
  {
    var s := "a.pth/b.pth";
    assert s[1..5] == ".pth";
    assert PthAt(s, 0, 1);
    var r := PthSearch(s, 0).value;
    assert r.0 == 0;
    assert s[5] == '/';
    assert r.1 < 5 || 0 <= 5 < r.1;
    assert r.1 == 1;
    assert s[0..1] + "" == "a";
  }

  /** [^/]* runs to the last ".pth" of its segment. */
  lemma ModelNameGreedyGroup()
    ensures ModelName("w/x.pth.pth", true, "geometric") == Success("x.pth_tta_geometric")
  {
    var s := "w/x.pth.pth";
    assert s[7..11] == ".pth";
    assert PthAt(s, 2, 7);
    var r := PthSearch(s, 0).value;
    assert s[1] == '/';
    assert r.0 == 2 && r.1 == 7;
    assert s[2..7] + ("_tta_" + "geometric") == "x.pth_tta_geometric";
  }

  /** No match of ([^/]*)\.pth starts in a directory part that holds no ".pth" and ends in '/'. */
  lemma NoMatchInDirectory(dir: string, base: string)
    requires dir == [] || dir[|dir| - 1] == '/'
    requires forall q :: !PthTag(dir, q)
    ensures forall p, q :: p < |dir| ==> !PthAt(dir + base + ".pth", p, q)
  {
    var s := dir + base + ".pth";
    var n := |dir|;
    forall q | 0 <= q && q + 4 <= n ensures !PthTag(s, q) {
      assert s[q..q + 4] == dir[q..q + 4];
      assert !PthTag(dir, q);
    }
    forall q | PthTag(s, q) ensures forall k :: q <= k < q + 4 ==> s[k] != '/' {
      PthTagHasNoSlash(s, q);
    }
    if n > 0 {
      assert s[n - 1] == '/';
    }
  }

  /** The per-crop names basename + "_tta" + str(i) for i in range(n). */
  function TtaNames(base: string, n: nat): (r: seq<string>)
    ensures |r| == n
  {
    seq(n, i requires 0 <= i < n => base + "_tta" + NatToString(i))
  }

  /** The i-th per-crop name is the image name, then "_tta", then the decimal digits of i. */
  lemma TtaNameParts(base: string, n: nat, i: nat)
    requires i < n
    ensures var name := TtaNames(base, n)[i];
      |name| > |base| + 4 && name[..|base| + 4] == base + "_tta" && name[|base| + 4..] == NatToString(i) &&
      (forall k :: |base| + 4 <= k < |name| ==> IsDigit(name[k])) &&
      ParseDigits(name[|base| + 4..]) == i
  {
    var name := TtaNames(base, n)[i];
    assert name[|base| + 4..] == NatToString(i);
    assert name[..|base| + 4] == base + "_tta";
    NatToStringRoundTrip(i);
  }

  /** No two crops of one image share a name. */
  lemma TtaNamesDistinct(base: string, n: nat, i: nat, j: nat)
    requires i < n && j < n && TtaNames(base, n)[i] == TtaNames(base, n)[j]
    ensures i == j
  {
    TtaNameParts(base, n, i);
    TtaNameParts(base, n, j);
  }
}
