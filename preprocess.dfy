/** `EnhancedBarcodeScanner.preprocess_frame`: the fixed list of labelled image
    variants handed to the symbol decoder. The OpenCV filters themselves are not
    modelled; an image is described by the filters that produced it. */
module Preprocess {

  /** The OpenCV operations of app1.py:15-40, with their fixed parameters. */
  datatype Filter =
    | ToGray              // cvtColor BGR -> GRAY
    | GaussianBlur5x5     // GaussianBlur, 5x5 kernel, sigma 0
    | AdaptiveGaussian    // adaptiveThreshold, Gaussian, block 11, C 2
    | Binary127           // threshold at 127, THRESH_BINARY
    | Otsu                // threshold with THRESH_OTSU
    | Clahe               // CLAHE, clip limit 2.0, 8x8 tiles
    | Sharpen3x3          // filter2D with the 3x3 kernel centred on 9

  /** An image: the captured frame itself, or a filter applied to another image. */
  datatype Image<F> = Captured(frame: F) | Filtered(filter: Filter, source: Image<F>)

  datatype Variant<F> = Variant(name: string, image: Image<F>)

  /** The labels, in the order the variants are produced. */
  const Labels: seq<string> :=
    ["Original", "Grayscale", "Blurred", "Adaptive Threshold", "Binary", "Otsu", "CLAHE", "Sharpened"]

  /** The grayscale image every filtered variant is computed from. */
  function Gray<F>(frame: F): Image<F> {
    Filtered(ToGray, Captured(frame))
  }

  /** The variant list `preprocess_frame` returns for `frame`. */
  function Variants<F>(frame: F): (r: seq<Variant<F>>)
    ensures |r| == |Labels| && forall i :: 0 <= i < |r| ==> r[i].name == Labels[i]
    ensures r[0].image == Captured(frame)
  {
    var gray := Gray(frame);
    [ Variant("Original", Captured(frame)),
      Variant("Grayscale", gray),
      Variant("Blurred", Filtered(GaussianBlur5x5, gray)),
      Variant("Adaptive Threshold", Filtered(AdaptiveGaussian, gray)),
      Variant("Binary", Filtered(Binary127, gray)),
      Variant("Otsu", Filtered(Otsu, gray)),
      Variant("CLAHE", Filtered(Clahe, gray)),
      Variant("Sharpened", Filtered(Sharpen3x3, gray)) ]
  }

  /** Builds the list one append at a time, as app1.py does. */
  method PreprocessFrame<F>(frame: F) returns (frames: seq<Variant<F>>)
    ensures frames == Variants(frame)
    ensures |frames| == 8 && forall i :: 0 <= i < 8 ==> frames[i].name == Labels[i]
    ensures frames[0].image == Captured(frame)
  {
    frames := [];
    frames := frames + [Variant("Original", Captured(frame))];
    var gray := Filtered(ToGray, Captured(frame));
    frames := frames + [Variant("Grayscale", gray)];
    frames := frames + [Variant("Blurred", Filtered(GaussianBlur5x5, gray))];
    frames := frames + [Variant("Adaptive Threshold", Filtered(AdaptiveGaussian, gray))];
    frames := frames + [Variant("Binary", Filtered(Binary127, gray))];
    frames := frames + [Variant("Otsu", Filtered(Otsu, gray))];
    frames := frames + [Variant("CLAHE", Filtered(Clahe, gray))];
    frames := frames + [Variant("Sharpened", Filtered(Sharpen3x3, gray))];
  }

  /** `image` is the grayscale image or one filter applied to it: single-channel. */
  ghost predicate GrayDerived<F>(image: Image<F>, frame: F) {
    image == Gray(frame) || (image.Filtered? && image.source == Gray(frame))
  }

  /** Always eight variants with distinct labels in the fixed order; the first is
      the unmodified input and every other one is grayscale-derived. */
  lemma VariantsShape<F>(frame: F)
    ensures |Variants(frame)| == |Labels| == 8
    ensures forall i :: 0 <= i < 8 ==> Variants(frame)[i].name == Labels[i]
    ensures forall i, j :: 0 <= i < j < 8 ==> Labels[i] != Labels[j]
    ensures Variants(frame)[0].image == Captured(frame)
    ensures forall i :: 1 <= i < 8 ==> GrayDerived(Variants(frame)[i].image, frame)
  {
  }
}
