/**
 * `voc2yolo(img_name, place)` for one image: the four paths it derives and the label
 * records it builds from the image's parsed annotation, or the exception that stops the
 * run before anything is copied or written.
 */
module Convert {
  import opened Wrappers
  import opened PyStr
  import opened LabelMap
  import opened BoxTransform
  import opened Paths

  /** What one call produces: where the image is read and copied, where the label file goes, and its records. */
  datatype ImageJob = ImageJob(
    imagePath: string,
    annotationPath: string,
    copyPath: string,
    labelPath: string,
    records: seq<YoloRecord>)

  /**
   * `voc2yolo`: `args` becomes `sourceDir` and `targetDir`, the global `classes_dict`
   * becomes `classes`, and `ann` is what `xml_reader` returns for the annotation path.
   * The records are built first; an exception there ends the call before the copy and
   * the label file are made.
   */
  method Voc2Yolo(sourceDir: string, targetDir: string, imgName: string, place: string,
                  classes: map<string, IdValue>, ann: Annotation)
    returns (r: Result<ImageJob, ConvertError>)
    ensures r.Ok? <==> forall i :: 0 <= i < |ann.objects| ==> ConvertObject(ann.objects[i], ann.width, ann.height, classes).Ok?
    ensures r.Ok? ==>
              var imgPath := ImagePath(sourceDir, imgName);
              && r.value.imagePath == imgPath
              && r.value.annotationPath == AnnotationPath(imgPath)
              && r.value.copyPath == CopiedImagePath(sourceDir, targetDir, imgPath, place)
              && r.value.labelPath == LabelPath(sourceDir, targetDir, AnnotationPath(imgPath), place)
              && AllConverted(ann.objects, ann.width, ann.height, classes, r.value.records)
    ensures r.Err? ==> exists k :: FirstFailure(ann.objects, ann.width, ann.height, classes, k)
                                && r.error == ConvertObject(ann.objects[k], ann.width, ann.height, classes).error
  {
    var imgPath := ImagePath(sourceDir, imgName);
    var xmlPath := AnnotationPath(imgPath);
    var lines := BuildLabelLines(ann, classes);
    if lines.Err? {
      return Err(lines.error);
    }
    var imgPathCopy := CopiedImagePath(sourceDir, targetDir, imgPath, place);
    var txtPath := LabelPath(sourceDir, targetDir, xmlPath, place);
    return Ok(ImageJob(imgPath, xmlPath, imgPathCopy, txtPath, lines.value));
  }

  /** `<target>/<place>/<kind>`, the directory a subset's images or labels are meant for. */
  function SubsetDir(targetDir: string, place: string, kind: string): string {
    targetDir + "/" + place + "/" + kind
  }

  /** The subset directories are exactly the ones `__main__` creates. */
  lemma SubsetDirsCreated(targetDir: string, place: string, kind: string)
    requires place == "train" || place == "val"
    requires kind == "images" || kind == "labels"
    ensures SubsetDir(targetDir, place, kind) in OutputDirs(targetDir)
  {
    var k := (if place == "train" then 0 else 2) + (if kind == "images" then 0 else 1);
    assert OutputDirs(targetDir)[k] == SubsetDir(targetDir, place, kind);
  }

  /**
   * For an image `<stem>.jpg` of the `train` or `val` list and a two-segment target root,
   * the copy and the label file land in the directories made for that subset.
   */
  lemma OutputsInCreatedDirs(sourceDir: string, targetDir: string, stem: string, place: string)
    requires place == "train" || place == "val"
    requires sourceDir != [] && !Contains(sourceDir, "JPEGImages") && !Contains(sourceDir, ".jpg")
    requires !Contains("/" + "JPEGImages" + "/" + (stem + ".jpg"), sourceDir)
    requires !Contains("/" + "Annotations" + "/" + (stem + ".xml"), sourceDir)
    requires !Contains(targetDir, "JPEGImages") && !Contains(targetDir, "Annotations") && !Contains(targetDir, ".xml")
    requires |Split(targetDir, '/')| == 2
    requires !Contains(stem, "JPEGImages") && !Contains(stem, "Annotations") && '.' !in stem
    ensures var imgPath := ImagePath(sourceDir, stem + ".jpg");
            && CopiedImagePath(sourceDir, targetDir, imgPath, place) == SubsetDir(targetDir, place, "images") + "/" + (stem + ".jpg")
            && LabelPath(sourceDir, targetDir, AnnotationPath(imgPath), place) == SubsetDir(targetDir, place, "labels") + "/" + (stem + ".txt")
    ensures SubsetDir(targetDir, place, "images") in OutputDirs(targetDir)
    ensures SubsetDir(targetDir, place, "labels") in OutputDirs(targetDir)
  {
    SuffixClean(stem, ".jpg", "JPEGImages");
    MissingCharNotContained(place, ".xml", 0);
    CopiedImageInPlaceDir(sourceDir, targetDir, stem + ".jpg", place);
    LabelPathLayout(sourceDir, targetDir, stem, place);
    SubsetDirsCreated(targetDir, place, "images");
    SubsetDirsCreated(targetDir, place, "labels");
  }
}
