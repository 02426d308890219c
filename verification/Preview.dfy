/** Limits on previewed images, and the verdict an inspector gives. */
module Preview {
  import opened Wrappers

  const AXIS_PIXELS: nat := 8192
  const PIXELS: nat := 16 * 1024 * 1024

  datatype Reason = Invalid | Unsupported | TooLarge

  datatype Verdict = Accepted(width: nat, height: nat) | Rejected(reason: Reason)

  /** The dimensions an image may have: no axis over 8192, no more than 16 Mi pixels. */
  predicate Fits(width: nat, height: nat) {
    0 < width <= AXIS_PIXELS && 0 < height <= AXIS_PIXELS && width * height <= PIXELS
  }

  method PreviewDimensions(width: nat, height: nat) returns (pixels: Option<nat>)
    ensures pixels.Some? <==> Fits(width, height)
    ensures pixels.Some? ==> pixels.value == width * height
  {
    pixels := None;
    if width <= 0 || height <= 0 || width > AXIS_PIXELS || height > AXIS_PIXELS {
      return;
    }
    QuotientBound(width, height);
    if width > PIXELS / height {
      return;
    }
    if width * height <= PIXELS {
      pixels := Some(width * height);
    }
  }

  lemma Scale(a: nat, b: nat, factor: nat)
    requires a <= b
    ensures a * factor <= b * factor
  {
  }

  /** The division test is exact. */
  lemma QuotientBound(width: nat, height: nat)
    requires height > 0
    ensures width <= PIXELS / height <==> width * height <= PIXELS
  {
    var q := PIXELS / height;
    assert PIXELS == q * height + PIXELS % height;
    if width <= q {
      Scale(width, q, height);
    } else {
      Scale(q + 1, width, height);
    }
  }
}
