/** `NSFWDetector.analyzePageImages`: walk the page's images in document
    order, skip those that are too small or not decoded, classify the rest
    until `maxImages` have been analysed, and count the flagged ones. The
    page's image list is passed in instead of being queried from the DOM. */
module PageScan {
  import opened Outcomes
  import opened Numbers
  import opened Detector

  datatype ScanOptions = ScanOptions(threshold: real, maxImages: int, skipSmallImages: bool, minImageSize: int)

  /** The defaults `analyzePageImages({})` destructures. */
  const DefaultOptions := ScanOptions(DefaultThreshold, 10, true, 100)

  /** One entry of `results`: the image and its analysis. */
  datatype Finding = Finding(element: Image, analysis: Analysis)

  datatype Report = Report(totalAnalyzed: nat, nsfwFound: nat, results: seq<Finding>)

  /** The size filter, active only when `skipSmallImages` is set. */
  predicate TooSmall(img: Image, opts: ScanOptions) {
    opts.skipSmallImages && (img.width < opts.minImageSize || img.height < opts.minImageSize)
  }

  /** The decode filter: incomplete or zero-width images are skipped. */
  predicate NotDecoded(img: Image) {
    !img.complete || img.naturalWidth == 0
  }

  /** An image the loop hands to `isImageNSFW`. */
  predicate Eligible(img: Image, opts: ScanOptions) {
    !TooSmall(img, opts) && !NotDecoded(img)
  }

  /** The finding records what `isImageNSFW` answered for its image. */
  predicate AnalysedAs(st: State, infer: Inference, opts: ScanOptions, f: Finding) {
    IsImageNSFW(st, infer, f.element, opts.threshold) == Success(f.analysis)
  }

  /** What the loop keeps of one image: its finding when the image is
      eligible and `isImageNSFW` succeeds on it, otherwise nothing. */
  function Select(st: State, infer: Inference, opts: ScanOptions, img: Image): (fs: seq<Finding>)
    ensures |fs| <= 1
  {
    var analysis := IsImageNSFW(st, infer, img, opts.threshold);
    if Eligible(img, opts) && analysis.Success? then [Finding(img, analysis.value)] else []
  }

  /** What `Select` keeps is that image, eligible, with its analysis. */
  lemma SelectSound(st: State, infer: Inference, opts: ScanOptions, img: Image)
    ensures forall f :: f in Select(st, infer, opts, img) ==>
      f.element == img && Eligible(img, opts) && AnalysedAs(st, infer, opts, f)
  {
  }

  /** The walk in document order, each image contributing what `pick`
      keeps of it. Kept apart from `Select` so that facts about the walk's
      shape are proved once, whatever is kept per image. */
  function Collect(imgs: seq<Image>, pick: Image -> seq<Finding>): seq<Finding>
  {
    if |imgs| == 0 then [] else Collect(imgs[..|imgs| - 1], pick) + pick(imgs[|imgs| - 1])
  }

  lemma CollectSnoc(imgs: seq<Image>, img: Image, pick: Image -> seq<Finding>)
    ensures Collect(imgs + [img], pick) == Collect(imgs, pick) + pick(img)
  {
    assert (imgs + [img])[..|imgs|] == imgs;
  }

  lemma {:induction false} CollectAppend(a: seq<Image>, b: seq<Image>, pick: Image -> seq<Finding>)
    ensures Collect(a + b, pick) == Collect(a, pick) + Collect(b, pick)
    decreases |b|
  {
    if |b| == 0 {
      assert a + b == a;
    } else {
      var init, last := b[..|b| - 1], b[|b| - 1];
      assert b == init + [last];
      assert a + b == (a + init) + [last];
      CollectSnoc(a + init, last, pick);
      CollectSnoc(init, last, pick);
      CollectAppend(a, init, pick);
    }
  }

  lemma {:induction false} CollectOfPrefix(imgs: seq<Image>, i: nat, pick: Image -> seq<Finding>)
    requires i <= |imgs|
    ensures var whole := Collect(imgs, pick);
      var part := Collect(imgs[..i], pick);
      |part| <= |whole| && part == whole[..|part|]
  {
    if i < |imgs| {
      var init := imgs[..|imgs| - 1];
      CollectOfPrefix(init, i, pick);
      assert init[..i] == imgs[..i];
    } else {
      assert imgs[..i] == imgs;
    }
  }

  lemma CollectKeepsEach(imgs: seq<Image>, k: nat, pick: Image -> seq<Finding>)
    requires k < |imgs|
    ensures forall f :: f in pick(imgs[k]) ==> f in Collect(imgs, pick)
  {
    var one := [imgs[k]];
    assert one == [] + one;
    CollectSnoc([], imgs[k], pick);
    assert imgs == imgs[..k] + one + imgs[k + 1..];
    CollectAppend(imgs[..k], one, pick);
    CollectAppend(imgs[..k] + one, imgs[k + 1..], pick);
  }

  /** `Select` as a value, for `Collect`. */
  function Pick(st: State, infer: Inference, opts: ScanOptions): Image -> seq<Finding>
  {
    img => Select(st, infer, opts, img)
  }

  /** Reference selection without the `maxImages` cut-off: every eligible
      image whose analysis succeeds, in document order. */
  function Findings(st: State, infer: Inference, opts: ScanOptions, imgs: seq<Image>): (fs: seq<Finding>)
    ensures |fs| <= |imgs|
  {
    if |imgs| == 0 then
      []
    else
      Findings(st, infer, opts, imgs[..|imgs| - 1]) + Select(st, infer, opts, imgs[|imgs| - 1])
  }

  /** `Findings` is the walk with `Select` kept per image. */
  lemma {:induction false} FindingsIsCollect(st: State, infer: Inference, opts: ScanOptions, imgs: seq<Image>)
    ensures Findings(st, infer, opts, imgs) == Collect(imgs, Pick(st, infer, opts))
  {
    if |imgs| > 0 {
      FindingsIsCollect(st, infer, opts, imgs[..|imgs| - 1]);
    }
  }

  /** One more image at the end of the page adds what that image yields. */
  lemma FindingsSnoc(st: State, infer: Inference, opts: ScanOptions, imgs: seq<Image>, img: Image)
    ensures Findings(st, infer, opts, imgs + [img]) == Findings(st, infer, opts, imgs) + Select(st, infer, opts, img)
  {
    FindingsIsCollect(st, infer, opts, imgs + [img]);
    FindingsIsCollect(st, infer, opts, imgs);
    CollectSnoc(imgs, img, Pick(st, infer, opts));
  }

  /** Nothing but eligible images is analysed: every finding is an image
      of the page that passes both filters, with the analysis
      `isImageNSFW` gives it. */
  lemma {:induction false} FindingsSound(st: State, infer: Inference, opts: ScanOptions, imgs: seq<Image>)
    ensures forall f :: f in Findings(st, infer, opts, imgs) ==>
      && f.element in imgs
      && Eligible(f.element, opts)
      && AnalysedAs(st, infer, opts, f)
  {
    if |imgs| > 0 {
      var init, last := imgs[..|imgs| - 1], imgs[|imgs| - 1];
      FindingsSound(st, infer, opts, init);
      SelectSound(st, infer, opts, last);
      assert imgs == init + [last];
      FindingsSnoc(st, infer, opts, init, last);
      assert forall img :: img in init ==> img in imgs;
    }
  }

  /** The first `n` elements, or none when `n` is not positive. */
  function Take(fs: seq<Finding>, n: int): (r: seq<Finding>)
    ensures |r| == Max(0, Min(n, |fs|))
    ensures r == fs[..|r|]
  {
    if n <= 0 then [] else if n >= |fs| then fs else fs[..n]
  }

  /** The `isNSFW` flags of the findings, in order. */
  function Flags(fs: seq<Finding>): (flags: seq<bool>)
    ensures |flags| == |fs|
    ensures forall k :: 0 <= k < |fs| ==> flags[k] == fs[k].analysis.isNSFW
  {
    seq(|fs|, k requires 0 <= k < |fs| => fs[k].analysis.isNSFW)
  }

  /** `results.filter((r) => r.isNSFW).length`. */
  function CountFlagged(fs: seq<Finding>): (n: nat)
    ensures n <= |fs|
    ensures n == |fs| <==> forall k :: 0 <= k < |fs| ==> fs[k].analysis.isNSFW
    ensures n == 0 <==> forall k :: 0 <= k < |fs| ==> !fs[k].analysis.isNSFW
  {
    if |fs| == 0 then
      0
    else
      var rest := CountFlagged(fs[1..]);
      assert forall k :: 1 <= k < |fs| ==> fs[k] == fs[1..][k - 1];
      (if fs[0].analysis.isNSFW then 1 else 0) + rest
  }

  /** The count is exact: it is the number of `true` flags among the
      findings. */
  lemma {:induction false} CountFlaggedIsExact(fs: seq<Finding>)
    ensures CountFlagged(fs) == multiset(Flags(fs))[true]
  {
    if |fs| > 0 {
      CountFlaggedIsExact(fs[1..]);
      assert Flags(fs) == [fs[0].analysis.isNSFW] + Flags(fs[1..]);
    }
  }

  /** Findings of a prefix of the page are a prefix of the page's findings. */
  lemma FindingsOfPrefix(st: State, infer: Inference, opts: ScanOptions, imgs: seq<Image>, i: nat)
    requires i <= |imgs|
    ensures var whole := Findings(st, infer, opts, imgs);
      var part := Findings(st, infer, opts, imgs[..i]);
      |part| <= |whole| && part == whole[..|part|]
  {
    FindingsIsCollect(st, infer, opts, imgs);
    FindingsIsCollect(st, infer, opts, imgs[..i]);
    CollectOfPrefix(imgs, i, Pick(st, infer, opts));
  }

  /** Findings of a page split anywhere are the findings of the two parts,
      in page order. */
  lemma FindingsAppend(st: State, infer: Inference, opts: ScanOptions, a: seq<Image>, b: seq<Image>)
    ensures Findings(st, infer, opts, a + b) == Findings(st, infer, opts, a) + Findings(st, infer, opts, b)
  {
    FindingsIsCollect(st, infer, opts, a + b);
    FindingsIsCollect(st, infer, opts, a);
    FindingsIsCollect(st, infer, opts, b);
    CollectAppend(a, b, Pick(st, infer, opts));
  }

  /** Nothing eligible is missed: every eligible image whose analysis
      succeeds has its finding among the page's findings. */
  lemma FindingsComplete(st: State, infer: Inference, opts: ScanOptions, imgs: seq<Image>, k: nat)
    requires k < |imgs|
    requires Eligible(imgs[k], opts)
    requires IsImageNSFW(st, infer, imgs[k], opts.threshold).Success?
    ensures Finding(imgs[k], IsImageNSFW(st, infer, imgs[k], opts.threshold).value)
            in Findings(st, infer, opts, imgs)
  {
    var pick := Pick(st, infer, opts);
    FindingsIsCollect(st, infer, opts, imgs);
    CollectKeepsEach(imgs, k, pick);
    assert pick(imgs[k]) == Select(st, infer, opts, imgs[k]);
  }

  /** A detector that is not ready analyses nothing: every classification
      rejects with "Model not loaded". */
  lemma {:induction false} NotReadyFindsNothing(st: State, infer: Inference, opts: ScanOptions, imgs: seq<Image>)
    requires !IsModelReady(st)
    ensures Findings(st, infer, opts, imgs) == []
  {
    if |imgs| > 0 {
      var init, last := imgs[..|imgs| - 1], imgs[|imgs| - 1];
      NotReadyFindsNothing(st, infer, opts, init);
      assert imgs == init + [last];
      FindingsSnoc(st, infer, opts, init, last);
    }
  }

  /** Walking one image further extends the findings by what that image
      yields. */
  lemma FindingsStep(st: State, infer: Inference, opts: ScanOptions, images: seq<Image>, i: nat)
    requires i < |images|
    ensures Findings(st, infer, opts, images[..i + 1])
            == Findings(st, infer, opts, images[..i]) + Select(st, infer, opts, images[i])
  {
    assert images[..i + 1] == images[..i] + [images[i]];
    FindingsSnoc(st, infer, opts, images[..i], images[i]);
  }

  /** Where the selection loop stops, having walked the whole page or
      reached `maxImages`, it holds the first `maxImages` findings. */
  lemma StoppedScanIsTake(st: State, infer: Inference, opts: ScanOptions, images: seq<Image>,
                          i: nat, results: seq<Finding>)
    requires i <= |images|
    requires results == Findings(st, infer, opts, images[..i])
    requires |results| <= Max(opts.maxImages, 0)
    requires i == |images| || |results| >= opts.maxImages
    ensures results == Take(Findings(st, infer, opts, images), opts.maxImages)
  {
    FindingsOfPrefix(st, infer, opts, images, i);
    if i == |images| {
      assert images[..i] == images;
    }
  }

  /** Each image the scan keeps is one of the page's images and passes
      both filters. */
  lemma KeptImagesAreEligible(st: State, infer: Inference, opts: ScanOptions, images: seq<Image>)
    ensures var results := Take(Findings(st, infer, opts, images), opts.maxImages);
      forall k :: 0 <= k < |results| ==> results[k].element in images && Eligible(results[k].element, opts)
  {
    var all := Findings(st, infer, opts, images);
    FindingsSound(st, infer, opts, images);
    assert forall k :: 0 <= k < |Take(all, opts.maxImages)| ==> Take(all, opts.maxImages)[k] in all;
  }

  /** One turn of the selection loop: skip a too small or undecoded image,
      otherwise keep what `isImageNSFW` answers, dropping a rejection as the
      `catch` does. */
  method AnalyzeOne(st: State, infer: Inference, img: Image, opts: ScanOptions)
    returns (kept: seq<Finding>)
    ensures kept == Select(st, infer, opts, img)
    ensures |kept| == 1 <==> Eligible(img, opts) && IsImageNSFW(st, infer, img, opts.threshold).Success?
  {
    kept := [];
    if TooSmall(img, opts) {
    } else if NotDecoded(img) {
    } else {
      var analysis := IsImageNSFW(st, infer, img, opts.threshold);
      if analysis.Success? {
        kept := [Finding(img, analysis.value)];
      }
    }
  }

  /** The selection loop of `analyzePageImages`: images in document order,
      stopping once `maxImages` analyses have succeeded. */
  method SelectAndAnalyze(st: State, infer: Inference, images: seq<Image>, opts: ScanOptions)
    returns (results: seq<Finding>)
    ensures results == Take(Findings(st, infer, opts, images), opts.maxImages)
    ensures |results| <= Max(opts.maxImages, 0)
  {
    results := [];
    var processed := 0;
    var i := 0;
    while i < |images|
      invariant 0 <= i <= |images|
      invariant processed == |results| <= Max(opts.maxImages, 0)
      invariant results == Findings(st, infer, opts, images[..i])
    {
      if processed >= opts.maxImages {
        break;
      }
      var img := images[i];
      FindingsStep(st, infer, opts, images, i);
      var kept := AnalyzeOne(st, infer, img, opts);
      results := results + kept;
      processed := processed + |kept|;
      i := i + 1;
    }
    StoppedScanIsTake(st, infer, opts, images, i, results);
  }

  /** `analyzePageImages(options)` on a page whose images are `images`,
      where `fetched` is what the runtime would answer a model load. */
  method AnalyzePageImages(st: State, infer: Inference, fetched: Result<Handle, string>,
                           images: seq<Image>, opts: ScanOptions)
    returns (after: State, r: Result<Report, Error>)
    ensures IsModelReady(st) ==> after == st
    ensures !IsModelReady(st) ==> after == LoadModel(st, fetched).state
    ensures r.Failure? <==> !IsModelReady(st) && LoadModel(st, fetched).outcome.Failure?
    ensures r.Failure? ==> r.error == LoadModel(st, fetched).outcome.error
    ensures r.Success? ==>
      && r.value.results == Take(Findings(after, infer, opts, images), opts.maxImages)
      && r.value.totalAnalyzed == |r.value.results| <= Max(opts.maxImages, 0)
      && r.value.nsfwFound == CountFlagged(r.value.results) <= r.value.totalAnalyzed
    ensures r.Success? ==> forall k :: 0 <= k < |r.value.results| ==>
      && r.value.results[k].element in images
      && !TooSmall(r.value.results[k].element, opts)
      && r.value.results[k].element.complete
      && r.value.results[k].element.naturalWidth != 0
  {
    after := st;
    if !IsModelReady(st) {
      var step := LoadModel(st, fetched);
      after := step.state;
      if step.outcome.Failure? {
        return after, Failure(step.outcome.error);
      }
    }
    var results := SelectAndAnalyze(after, infer, images, opts);
    KeptImagesAreEligible(after, infer, opts, images);
    r := Success(Report(|results|, CountFlagged(results), results));
  }

  /** `analyzePageImages()` with no options: at most ten results, each at
      least 100 by 100 pixels and flagged exactly at the 0.6 threshold rule. */
  lemma DefaultScanBounds(st: State, infer: Inference, images: seq<Image>)
    ensures var results := Take(Findings(st, infer, DefaultOptions, images), DefaultOptions.maxImages);
      && |results| <= 10
      && forall k :: 0 <= k < |results| ==>
           && results[k].element.width >= 100
           && results[k].element.height >= 100
           && IsImageNSFW(st, infer, results[k].element, 0.6) == Success(results[k].analysis)
  {
    var all := Findings(st, infer, DefaultOptions, images);
    var results := Take(all, DefaultOptions.maxImages);
    FindingsSound(st, infer, DefaultOptions, images);
    forall k | 0 <= k < |results|
      ensures results[k].element.width >= 100 && results[k].element.height >= 100
      ensures IsImageNSFW(st, infer, results[k].element, 0.6) == Success(results[k].analysis)
    {
      assert results[k] == all[k];
      assert AnalysedAs(st, infer, DefaultOptions, all[k]);
    }
  }
}
