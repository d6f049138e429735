/**
 * The per-object body of `voc2yolo`: the class lookup in `classes_dict` and the conversion
 * of an absolute corner box into YOLO's normalised centre box, plus the truncation with
 * which `xml_reader` turns the XML's coordinates into integers. Arithmetic is exact (`real`).
 */
module BoxTransform {
  import opened Wrappers
  import opened LabelMap

  /** One `object` entry returned by `xml_reader`: the class name and `[xmin, ymin, xmax, ymax]`. */
  datatype ObjectBox = ObjectBox(name: string, xmin: int, ymin: int, xmax: int, ymax: int)

  /** The tuple `(width, height, objects)` returned by `xml_reader`. */
  datatype Annotation = Annotation(width: int, height: int, objects: seq<ObjectBox>)

  /** An `object` entry as the XML gives it, each corner already read by `float(...)`. */
  datatype RawObject = RawObject(name: string, xmin: real, ymin: real, xmax: real, ymax: real)

  /** A box by its corners, in pixels. */
  datatype Corners = Corners(x: real, y: real, x2: real, y2: real)

  /** A box by its centre and size, as fractions of the image's width and height. */
  datatype NormBox = NormBox(cx: real, cy: real, w: real, h: real)

  /** One label line: `label - 1` and the normalised box (printed with `%d %.6f %.6f %.6f %.6f`). */
  datatype YoloRecord = YoloRecord(classIndex: int, box: NormBox)

  /**
   * `UnknownClass`: `classes_dict[class_name]` raised `KeyError`.
   * `ZeroDivision`: the image width or height is 0.
   * `LabelNotInteger`: the stored label is the built-in `id`, on which `int(label)` raises `TypeError`.
   */
  datatype ConvertError = UnknownClass(name: string) | ZeroDivision | LabelNotInteger(name: string)

  // ---------------------------------------------------------------------------
  // xml_reader: int(float(text))

  /** Python's `int(x)` for a float: the integer part, rounding toward zero. */
  function Truncate(x: real): (r: int)
    ensures 0.0 <= x ==> 0 <= r && r as real <= x < r as real + 1.0
    ensures x < 0.0 ==> r <= 0 && r as real - 1.0 < x <= r as real
  {
    if 0.0 <= x then x.Floor else -((-x).Floor)
  }

  /** Truncation never reverses the order of two values. */
  lemma TruncateMonotone(x: real, y: real)
    requires x <= y
    ensures Truncate(x) <= Truncate(y)
  {
  }

  /** A corner already integral is read unchanged. */
  lemma TruncateIntegral(n: int)
    ensures Truncate(n as real) == n
  {
  }

  /** The corner record `xml_reader` appends for one `object`. */
  function ReadObject(raw: RawObject): ObjectBox
  {
    ObjectBox(raw.name, Truncate(raw.xmin), Truncate(raw.ymin), Truncate(raw.xmax), Truncate(raw.ymax))
  }

  /**
   * Reading keeps the name, moves each corner by less than one pixel toward zero and keeps
   * corners in order, though not strictly: a fractional box may collapse.
   */
  lemma ReadObjectOrdered(raw: RawObject)
    requires 0.0 <= raw.xmin <= raw.xmax && 0.0 <= raw.ymin <= raw.ymax
    ensures var o := ReadObject(raw);
      && o.name == raw.name
      && 0 <= o.xmin <= o.xmax && 0 <= o.ymin <= o.ymax
      && raw.xmin - 1.0 < o.xmin as real <= raw.xmin && raw.xmax - 1.0 < o.xmax as real <= raw.xmax
      && raw.ymin - 1.0 < o.ymin as real <= raw.ymin && raw.ymax - 1.0 < o.ymax as real <= raw.ymax
  {
    TruncateMonotone(raw.xmin, raw.xmax);
    TruncateMonotone(raw.ymin, raw.ymax);
  }

  /** Truncation can collapse a box with fractional corners to zero width. */
  lemma TruncationMayCollapse()
    ensures var o := ReadObject(RawObject("cat", 0.2, 0.0, 0.8, 1.0)); o.xmin == o.xmax == 0
  {
  }

  // ---------------------------------------------------------------------------
  // The transform

  /** `cx = (x2+x)*0.5/width`, `cy = (y2+y)*0.5/height`, `w = (x2-x)*1./width`, `h = (y2-y)*1./height`. */
  function Normalize(c: Corners, width: real, height: real): NormBox
    requires width != 0.0 && height != 0.0
  {
    NormBox((c.x2 + c.x) * 0.5 / width, (c.y2 + c.y) * 0.5 / height,
            (c.x2 - c.x) * 1.0 / width, (c.y2 - c.y) * 1.0 / height)
  }

  /** The inverse mapping: corners from centre and size. */
  function Denormalize(n: NormBox, width: real, height: real): Corners
  {
    Corners(width * (n.cx - n.w / 2.0), height * (n.cy - n.h / 2.0),
            width * (n.cx + n.w / 2.0), height * (n.cy + n.h / 2.0))
  }

  /** A box lies inside the image with its corners in order. */
  predicate InImage(c: Corners, width: real, height: real) {
    0.0 <= c.x < c.x2 <= width && 0.0 <= c.y < c.y2 <= height
  }

  /** The center and the size along one axis lie in [0, 1] and the size is positive. */
  lemma AxisInRange(a: real, a2: real, side: real)
    requires 0.0 <= a < a2 <= side
    ensures 0.0 < (a2 + a) * 0.5 / side < 1.0
    ensures 0.0 < (a2 - a) * 1.0 / side <= 1.0
  {
    FractionBounds((a2 + a) * 0.5, side);
    FractionBounds((a2 - a) * 1.0, side);
  }

  /** A positive part of a positive whole is a fraction in (0, 1]; a proper part is below 1. */
  lemma FractionBounds(part: real, whole: real)
    requires 0.0 < part <= whole
    ensures 0.0 < part / whole <= 1.0
    ensures part < whole ==> part / whole < 1.0
  {
    var q := part / whole;
    assert q * whole == part;
    assert (q - 1.0) * whole == part - whole;
    ProductSign(q - 1.0, whole);
  }

  /** A non-negative number times a positive one is non-negative. */
  lemma ProductSign(a: real, b: real)
    requires 0.0 < b
    ensures 0.0 <= a ==> 0.0 <= a * b
  {
  }

  /** For a box inside the image all four values lie in [0, 1], and the size is positive. */
  lemma NormalizeInRange(c: Corners, width: real, height: real)
    requires 0.0 < width && 0.0 < height && InImage(c, width, height)
    ensures var n := Normalize(c, width, height);
      && 0.0 < n.cx < 1.0 && 0.0 < n.cy < 1.0
      && 0.0 < n.w <= 1.0 && 0.0 < n.h <= 1.0
  {
    AxisInRange(c.x, c.x2, width);
    AxisInRange(c.y, c.y2, height);
  }

  /** Along one axis the centre and size give back both corners. */
  lemma AxisInverse(a: real, a2: real, side: real)
    requires side != 0.0
    ensures side * ((a2 + a) * 0.5 / side - (a2 - a) * 1.0 / side / 2.0) == a
    ensures side * ((a2 + a) * 0.5 / side + (a2 - a) * 1.0 / side / 2.0) == a2
  {
    var c := (a2 + a) * 0.5 / side;
    var d := (a2 - a) * 1.0 / side;
    assert c * side == (a2 + a) * 0.5;
    assert d * side == a2 - a;
    assert side * (c - d / 2.0) == c * side - d * side / 2.0;
    assert side * (c + d / 2.0) == c * side + d * side / 2.0;
  }

  /** The transform is exactly invertible: `x = width*(cx - w/2)`, `x2 = width*(cx + w/2)`, likewise for y. */
  lemma DenormalizeNormalize(c: Corners, width: real, height: real)
    requires width != 0.0 && height != 0.0
    ensures Denormalize(Normalize(c, width, height), width, height) == c
  {
    AxisInverse(c.x, c.x2, width);
    AxisInverse(c.y, c.y2, height);
  }

  /** Along one axis the corners of a centre box normalise back to the centre and size. */
  lemma AxisInverseBack(m: real, s: real, side: real)
    requires side != 0.0
    ensures (side * (m + s / 2.0) + side * (m - s / 2.0)) * 0.5 / side == m
    ensures (side * (m + s / 2.0) - side * (m - s / 2.0)) * 1.0 / side == s
  {
    assert (side * (m + s / 2.0) + side * (m - s / 2.0)) * 0.5 == side * m;
    assert (side * (m + s / 2.0) - side * (m - s / 2.0)) * 1.0 == side * s;
  }

  /** And the other way round: every centre box is the image of its corners. */
  lemma NormalizeDenormalize(n: NormBox, width: real, height: real)
    requires width != 0.0 && height != 0.0
    ensures Normalize(Denormalize(n, width, height), width, height) == n
  {
    AxisInverseBack(n.cx, n.w, width);
    AxisInverseBack(n.cy, n.h, height);
  }

  // ---------------------------------------------------------------------------
  // One object

  /** The corners of an integer box. */
  function CornersOf(o: ObjectBox): Corners {
    Corners(o.xmin as real, o.ymin as real, o.xmax as real, o.ymax as real)
  }

  /**
   * The loop body for one object: look the class up (`KeyError`), divide by width and
   * height (`ZeroDivisionError`), then `int(label) - 1` (`TypeError` on the built-in `id`).
   */
  function ConvertObject(o: ObjectBox, width: int, height: int, classes: map<string, IdValue>): (r: Result<YoloRecord, ConvertError>)
    ensures r.Ok? <==> o.name in classes && width != 0 && height != 0 && classes[o.name].Id?
    ensures o.name !in classes ==> r == Err(UnknownClass(o.name))
    ensures r.Ok? ==> r.value.classIndex == classes[o.name].value - 1
  {
    if o.name !in classes then Err(UnknownClass(o.name))
    else if width == 0 || height == 0 then Err(ZeroDivision)
    else
      match classes[o.name]
      case BuiltinId => Err(LabelNotInteger(o.name))
      case Id(id) => Ok(YoloRecord(id - 1, Normalize(CornersOf(o), width as real, height as real)))
  }

  /** The record of a box inside the image has all four values in [0, 1]. */
  lemma RecordInRange(o: ObjectBox, width: int, height: int, classes: map<string, IdValue>)
    requires ConvertObject(o, width, height, classes).Ok?
    requires 0 < width && 0 < height && InImage(CornersOf(o), width as real, height as real)
    ensures var n := ConvertObject(o, width, height, classes).value.box;
      0.0 < n.cx < 1.0 && 0.0 < n.cy < 1.0 && 0.0 < n.w <= 1.0 && 0.0 < n.h <= 1.0
  {
    NormalizeInRange(CornersOf(o), width as real, height as real);
  }

  /** The record's box gives the object's pixel corners back. */
  lemma RecordRecoversCorners(o: ObjectBox, width: int, height: int, classes: map<string, IdValue>)
    requires ConvertObject(o, width, height, classes).Ok?
    ensures Denormalize(ConvertObject(o, width, height, classes).value.box, width as real, height as real) == CornersOf(o)
  {
    DenormalizeNormalize(CornersOf(o), width as real, height as real);
  }

  // ---------------------------------------------------------------------------
  // The loop over the objects of one image

  /** `records` holds one record per object, in object order. */
  ghost predicate AllConverted(objects: seq<ObjectBox>, width: int, height: int, classes: map<string, IdValue>, records: seq<YoloRecord>) {
    && |records| == |objects|
    && forall i :: 0 <= i < |objects| ==> ConvertObject(objects[i], width, height, classes) == Ok(records[i])
  }

  /** Object `k` is the first one whose conversion raises. */
  ghost predicate FirstFailure(objects: seq<ObjectBox>, width: int, height: int, classes: map<string, IdValue>, k: int) {
    && 0 <= k < |objects|
    && ConvertObject(objects[k], width, height, classes).Err?
    && forall j :: 0 <= j < k ==> ConvertObject(objects[j], width, height, classes).Ok?
  }

  /**
   * The loop that builds `lines`: one record per object in object order, or the
   * exception of the first object that raises (the script stops there).
   */
  method BuildLabelLines(ann: Annotation, classes: map<string, IdValue>) returns (r: Result<seq<YoloRecord>, ConvertError>)
    ensures r.Ok? <==> forall i :: 0 <= i < |ann.objects| ==> ConvertObject(ann.objects[i], ann.width, ann.height, classes).Ok?
    ensures r.Ok? ==> AllConverted(ann.objects, ann.width, ann.height, classes, r.value)
    ensures r.Err? ==> exists k :: FirstFailure(ann.objects, ann.width, ann.height, classes, k)
                                && r.error == ConvertObject(ann.objects[k], ann.width, ann.height, classes).error
  {
    var lines: seq<YoloRecord> := [];
    var i := 0;
    while i < |ann.objects|
      invariant 0 <= i <= |ann.objects|
      invariant AllConverted(ann.objects[..i], ann.width, ann.height, classes, lines)
    {
      var obj := ann.objects[i];
      var converted := ConvertObject(obj, ann.width, ann.height, classes);
      if converted.Err? {
        assert FirstFailure(ann.objects, ann.width, ann.height, classes, i) by {
          assert forall j :: 0 <= j < i ==> ann.objects[..i][j] == ann.objects[j];
        }
        return Err(converted.error);
      }
      lines := lines + [converted.value];
      assert ann.objects[..i + 1] == ann.objects[..i] + [obj];
      i := i + 1;
    }
    assert ann.objects[..i] == ann.objects;
    return Ok(lines);
  }

  /** The worked example: `cat` with id 1, a 100x200 image and the box (10, 20, 30, 40). */
  lemma CatExample()
    ensures ConvertObject(ObjectBox("cat", 10, 20, 30, 40), 100, 200, map["cat" := Id(1), "dog" := Id(2)])
            == Ok(YoloRecord(0, NormBox(0.2, 0.15, 0.2, 0.1)))
  {
  }
}
