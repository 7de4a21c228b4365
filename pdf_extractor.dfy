/**
 * The integer geometry of question extraction: estimating a question's box from a position
 * phrase, turning the model's normalised 0-1000 box into padded page pixels (or a fallback
 * strip), clamping a box before cropping, and cleaning the model's reply before JSON parsing.
 * Rendering, cropping, encoding and the model calls themselves are not modelled.
 */
module PdfExtractor {
  import opened Wrappers
  import opened Text
  import opened PyNumbers

  /** A box in page pixels: the `x`, `y`, `width`, `height` of the `bbox` dict. */
  datatype BoundingBox = BoundingBox(x: int, y: int, width: int, height: int)

  function Max(a: int, b: int): int {
    if a >= b then a else b
  }

  function Min(a: int, b: int): int {
    if a <= b then a else b
  }

  // ---------------------------------------------------------------- position estimate

  /**
   * `_estimate_bbox_from_position`: the page cut into thirds vertically ("top", "bottom",
   * otherwise the middle) and halves horizontally ("left", "right", otherwise full width),
   * matching the words anywhere in the lower-cased phrase, the first word listed winning.
   */
  method EstimateBboxFromPosition(location_desc: string, width: int, height: int) returns (bbox: BoundingBox)
    ensures var d := Lower(location_desc);
      && (Contains(d, "top") ==> bbox.y == 0 && bbox.height == height / 3)
      && (!Contains(d, "top") && Contains(d, "bottom") ==> bbox.y == 2 * height / 3 && bbox.height == height / 3)
      && (!Contains(d, "top") && !Contains(d, "bottom") ==> bbox.y == height / 3 && bbox.height == height / 3)
      && (Contains(d, "left") ==> bbox.x == 0 && bbox.width == width / 2)
      && (!Contains(d, "left") && Contains(d, "right") ==> bbox.x == width / 2 && bbox.width == width / 2)
      && (!Contains(d, "left") && !Contains(d, "right") ==> bbox.x == 0 && bbox.width == width)
    ensures width >= 0 && height >= 0 ==>
      && 0 <= bbox.x && 0 <= bbox.width && bbox.x + bbox.width <= width
      && 0 <= bbox.y && 0 <= bbox.height && bbox.y + bbox.height <= height
  {
    var desc := Lower(location_desc);
    bbox := BoundingBox(0, 0, width, height);
    if Contains(desc, "top") {
      bbox := bbox.(y := 0);
      bbox := bbox.(height := height / 3);
    } else if Contains(desc, "bottom") {
      bbox := bbox.(y := 2 * height / 3);
      bbox := bbox.(height := height / 3);
    } else {
      bbox := bbox.(y := height / 3);
      bbox := bbox.(height := height / 3);
    }
    if Contains(desc, "left") {
      bbox := bbox.(x := 0);
      bbox := bbox.(width := width / 2);
    } else if Contains(desc, "right") {
      bbox := bbox.(x := width / 2);
      bbox := bbox.(width := width / 2);
    }
  }

  // ---------------------------------------------------------------- crop clamp

  /** The `bounding_box` dict handed to the crop; an absent key is `None`. */
  datatype BoxFields = BoxFields(x: Option<int>, y: Option<int>, width: Option<int>, height: Option<int>)

  /** The `(left, upper, right, lower)` rectangle handed to the image library's crop. */
  datatype CropBox = CropBox(left: int, upper: int, right: int, lower: int)

  /**
   * The clamp in `crop_question_image`: missing keys default to `(0, 0, 100, 50)`. A corner
   * before the image moves to 0, one past it to the last pixel (0 on an empty image), and one
   * on the image stays. The far edge is the corner plus the size, cut at the border.
   */
  method CropBounds(bounding_box: BoxFields, img_width: nat, img_height: nat) returns (c: CropBox)
    ensures var x, w := bounding_box.x.GetOr(0), bounding_box.width.GetOr(100);
      && (x < 0 || img_width == 0 ==> c.left == 0)
      && (0 <= x < img_width ==> c.left == x)
      && (0 < img_width <= x ==> c.left == img_width - 1)
      && (c.left + w <= img_width ==> c.right == c.left + w)
      && (c.left + w > img_width ==> c.right == img_width)
    ensures var y, h := bounding_box.y.GetOr(0), bounding_box.height.GetOr(50);
      && (y < 0 || img_height == 0 ==> c.upper == 0)
      && (0 <= y < img_height ==> c.upper == y)
      && (0 < img_height <= y ==> c.upper == img_height - 1)
      && (c.upper + h <= img_height ==> c.lower == c.upper + h)
      && (c.upper + h > img_height ==> c.lower == img_height)
    ensures var x, w := bounding_box.x.GetOr(0), bounding_box.width.GetOr(100);
      && (img_width > 0 ==> 0 <= c.left < img_width)
      && c.right <= img_width
      && (img_width > 0 && w >= 0 ==> c.left <= c.right)
      && (0 <= x < img_width && 0 <= w && x + w <= img_width ==> c.left == x && c.right == x + w)
    ensures var y, h := bounding_box.y.GetOr(0), bounding_box.height.GetOr(50);
      && (img_height > 0 ==> 0 <= c.upper < img_height)
      && c.lower <= img_height
      && (img_height > 0 && h >= 0 ==> c.upper <= c.lower)
      && (0 <= y < img_height && 0 <= h && y + h <= img_height ==> c.upper == y && c.lower == y + h)
    ensures bounding_box == BoxFields(None, None, None, None) && img_width >= 100 && img_height >= 50 ==>
      c == CropBox(0, 0, 100, 50)
  {
    var x := bounding_box.x.GetOr(0);
    var y := bounding_box.y.GetOr(0);
    var width := bounding_box.width.GetOr(100);
    var height := bounding_box.height.GetOr(50);
    x := Max(0, Min(x, img_width - 1));
    y := Max(0, Min(y, img_height - 1));
    var right := Min(x + width, img_width);
    var bottom := Min(y + height, img_height);
    c := CropBox(x, y, right, bottom);
  }

  // ---------------------------------------------------------------- grounded boxes

  const PADDING_TOP := 15
  const PADDING_SIDES := 10
  const PADDING_BOTTOM := 10

  /** A normalised coordinate (0-1000) as a pixel offset along a side of `size` pixels. */
  function Scale(v: real, size: int): int {
    Trunc(v / 1000.0 * size as real)
  }

  /** The model's `[ymin, xmin, ymax, xmax]` converted to pixels, before padding. */
  function PixelBox(ymin: real, xmin: real, ymax: real, xmax: real, img_width: int, img_height: int): BoundingBox {
    BoundingBox(Scale(xmin, img_width), Scale(ymin, img_height), Scale(xmax - xmin, img_width), Scale(ymax - ymin, img_height))
  }

  /** The two checks the extraction reports on: coordinates in range and a non-inverted box. */
  predicate WellFormed(ymin: real, xmin: real, ymax: real, xmax: real) {
    && 0.0 <= ymin <= 1000.0 && 0.0 <= xmin <= 1000.0 && 0.0 <= ymax <= 1000.0 && 0.0 <= xmax <= 1000.0
    && ymin < ymax && xmin < xmax
  }

  lemma ScaleWithin(v: real, size: int)
    requires 0.0 <= v <= 1000.0 && size >= 0
    ensures 0 <= Scale(v, size) <= size
  {
    var f := v / 1000.0;
    assert 0.0 <= f <= 1.0;
    assert 0.0 <= f * size as real;
    assert (1.0 - f) * size as real >= 0.0;
  }

  /** A well-formed box converts to pixels that start on the page and have no negative size. */
  lemma PixelBoxWithin(ymin: real, xmin: real, ymax: real, xmax: real, img_width: int, img_height: int)
    requires WellFormed(ymin, xmin, ymax, xmax) && img_width >= 0 && img_height >= 0
    ensures var raw := PixelBox(ymin, xmin, ymax, xmax, img_width, img_height);
      0 <= raw.x <= img_width && 0 <= raw.width && 0 <= raw.y <= img_height && 0 <= raw.height
  {
    ScaleWithin(xmin, img_width);
    ScaleWithin(ymin, img_height);
    ScaleWithin(xmax - xmin, img_width);
    ScaleWithin(ymax - ymin, img_height);
  }

  /** `n` fallback strips of height `h // n` fit on a page of height `h`. */
  lemma StripsFit(h: int, n: nat)
    requires h >= 0 && n > 0
    ensures 0 <= h / n && n * (h / n) <= h
  {
    assert n * (h / n) + h % n == h;
  }

  /**
   * The padding and clamp applied to a converted box: 10 px more at each side, 15 px above and
   * 10 px below, then the corner is moved onto the page and the size cut at the page's far edges.
   */
  method PadAndClamp(raw: BoundingBox, img_width: int, img_height: int) returns (bbox: BoundingBox)
    ensures 0 <= bbox.x && bbox.x + bbox.width <= img_width
    ensures 0 <= bbox.y && bbox.y + bbox.height <= img_height
    ensures bbox.x <= Max(0, raw.x) && Min(raw.x + raw.width, img_width) <= bbox.x + bbox.width
    ensures bbox.y <= Max(0, raw.y) && Min(raw.y + raw.height, img_height) <= bbox.y + bbox.height
    ensures raw.x >= 10 && raw.x + raw.width + 10 <= img_width ==> bbox.x == raw.x - 10 && bbox.width == raw.width + 20
    ensures raw.y >= 15 && raw.y + raw.height + 10 <= img_height ==> bbox.y == raw.y - 15 && bbox.height == raw.height + 25
    ensures 0 <= raw.x <= img_width && 0 <= raw.width ==> 0 <= bbox.width
    ensures 0 <= raw.y <= img_height && 0 <= raw.height ==> 0 <= bbox.height
  {
    bbox := raw;
    bbox := bbox.(x := bbox.x - PADDING_SIDES);
    bbox := bbox.(y := bbox.y - PADDING_TOP);
    bbox := bbox.(width := bbox.width + PADDING_SIDES * 2);
    bbox := bbox.(height := bbox.height + PADDING_TOP + PADDING_BOTTOM);
    bbox := bbox.(x := Max(0, bbox.x));
    bbox := bbox.(y := Max(0, bbox.y));
    bbox := bbox.(width := Min(bbox.width, img_width - bbox.x));
    bbox := bbox.(height := Min(bbox.height, img_height - bbox.y));
  }

  /**
   * The box stored for one question of a page: a four-number `box_2d` is converted, padded
   * and clamped; anything else gets the fallback strip `(0, 0, W, H // n)` for the page's `n`
   * questions.
   */
  method QuestionBox(box_2d: seq<real>, img_width: int, img_height: int, question_count: nat)
    returns (bbox: BoundingBox)
    ensures |box_2d| != 4 ==>
      bbox == BoundingBox(0, 0, img_width, if question_count > 0 then img_height / question_count else img_height)
    ensures |box_2d| != 4 && question_count > 0 && img_height >= 0 ==>
      0 <= bbox.height && question_count * bbox.height <= img_height
    ensures |box_2d| == 4 ==>
      var raw := PixelBox(box_2d[0], box_2d[1], box_2d[2], box_2d[3], img_width, img_height);
      && 0 <= bbox.x && bbox.x + bbox.width <= img_width
      && 0 <= bbox.y && bbox.y + bbox.height <= img_height
      && bbox.x <= Max(0, raw.x) && Min(raw.x + raw.width, img_width) <= bbox.x + bbox.width
      && bbox.y <= Max(0, raw.y) && Min(raw.y + raw.height, img_height) <= bbox.y + bbox.height
    ensures |box_2d| == 4 && WellFormed(box_2d[0], box_2d[1], box_2d[2], box_2d[3]) && img_width >= 0 && img_height >= 0 ==>
      0 <= bbox.width && 0 <= bbox.height
  {
    if |box_2d| == 4 {
      var ymin, xmin, ymax, xmax := box_2d[0], box_2d[1], box_2d[2], box_2d[3];
      var raw := PixelBox(ymin, xmin, ymax, xmax, img_width, img_height);
      if WellFormed(ymin, xmin, ymax, xmax) && img_width >= 0 && img_height >= 0 {
        PixelBoxWithin(ymin, xmin, ymax, xmax, img_width, img_height);
      }
      bbox := PadAndClamp(raw, img_width, img_height);
    } else {
      var height := if question_count > 0 then img_height / question_count else img_height;
      if question_count > 0 && img_height >= 0 {
        StripsFit(img_height, question_count);
      }
      bbox := BoundingBox(0, 0, img_width, height);
    }
  }

  // ---------------------------------------------------------------- the reply

  /** The reply text is trimmed, its markdown fence removed, and the rest trimmed again. */
  method CleanExtractionReply(text: string) returns (r: string)
    ensures r == Strip(Unfenced(Strip(text)))
  {
    r := Strip(text);
    r := StripFence(r);
    r := Strip(r);
  }

  /** A reply fenced as "```json" or as a bare "```" yields its body without the whitespace around it. */
  lemma ExtractionReplyRoundTrip(open: string, body: string)
    requires open == JSON_FENCE || open == FENCE
    requires body == [] || (body[0] != '`' && body[0] != 'j')
    ensures Strip(Unfenced(Strip(open + body + FENCE))) == Strip(body)
  {
    UnfencedRoundTrip(open, body);
    StripFenced(open, body);
    assert Unfenced(open + body + FENCE) == body;
  }
}
