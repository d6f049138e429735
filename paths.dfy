/**
 * The file names `voc2yolo` derives for one image: the source image, its annotation, the
 * copy of the image and the label file, all by string substitution and by inserting the
 * subset name (`place`) as the third `/`-separated segment; and the four output
 * directories `__main__` creates.
 */
module Paths {
  import opened PyStr

  /** `f"{args.source_dir}/JPEGImages/{img_name}"`. */
  function ImagePath(sourceDir: string, imgName: string): string {
    sourceDir + "/" + "JPEGImages" + "/" + imgName
  }

  /** `img_path.replace("JPEGImages", "Annotations").replace(".jpg", ".xml")`. */
  function AnnotationPath(imgPath: string): string {
    Replace(Replace(imgPath, "JPEGImages", "Annotations"), ".jpg", ".xml")
  }

  /** `p = path.split('/'); p.insert(2, place); '/'.join(p)`. */
  function InsertPlace(path: string, place: string): string {
    Join(Insert(Split(path, '/'), 2, place), '/')
  }

  /** `img_path.replace(source_dir, target_dir).replace('JPEGImages', 'images')`, then `place` inserted. */
  function CopiedImagePath(sourceDir: string, targetDir: string, imgPath: string, place: string): string {
    InsertPlace(Replace(Replace(imgPath, sourceDir, targetDir), "JPEGImages", "images"), place)
  }

  /** `xml_path.replace(source_dir, target_dir).replace('Annotations', 'labels')`, `place` inserted, `.xml` to `.txt`. */
  function LabelPath(sourceDir: string, targetDir: string, xmlPath: string, place: string): string {
    Replace(InsertPlace(Replace(Replace(xmlPath, sourceDir, targetDir), "Annotations", "labels"), place), ".xml", ".txt")
  }

  /** The directories `__main__` creates before converting anything: `<target>/train/images` and so on. */
  function OutputDirs(targetDir: string): seq<string> {
    [ targetDir + "/" + "train" + "/" + "images", targetDir + "/" + "train" + "/" + "labels",
      targetDir + "/" + "val" + "/" + "images", targetDir + "/" + "val" + "/" + "labels" ]
  }

  // ---------------------------------------------------------------------------
  // Substitution steps

  /**
   * Replacing a pattern that holds no `/` and is absent from `root` and `rest` turns
   * `root/pat/rest` into `root/repl/rest`.
   */
  lemma ReplaceMiddle(root: string, pat: string, repl: string, rest: string)
    requires pat != [] && '/' !in pat
    requires !Contains(root, pat) && !Contains(rest, pat)
    ensures Replace(root + "/" + pat + "/" + rest, pat, repl) == root + "/" + repl + "/" + rest
  {
    RegroupAfter(root, pat, rest, '/');
    ReplaceAcross(root, '/', pat + "/" + rest, pat, repl);
    ReplaceSegment(pat, '/', rest, repl);
    RegroupAfter(root, repl, rest, '/');
  }

  /** A pattern absent from `root` and `dir` is replaced only inside the file name of `root/dir/name`. */
  lemma ReplaceInName(root: string, dir: string, name: string, pat: string, repl: string)
    requires pat != [] && '/' !in pat
    requires !Contains(root, pat) && !Contains(dir, pat)
    ensures Replace(root + "/" + dir + "/" + name, pat, repl) == root + "/" + dir + "/" + Replace(name, pat, repl)
  {
    RegroupAfter(root, dir, name, '/');
    ReplaceAcross(root, '/', dir + "/" + name, pat, repl);
    ReplaceAcross(dir, '/', name, pat, repl);
    RegroupAfter(root, dir, Replace(name, pat, repl), '/');
  }

  /** Replacing the leading root, which occurs nowhere after it, swaps the root and nothing else. */
  lemma ReplaceRoot(root: string, newRoot: string, rest: string)
    requires root != [] && !Contains(rest, root)
    ensures Replace(root + rest, root, newRoot) == newRoot + rest
  {
    ReplaceHead(root, rest, newRoot);
    ReplaceAbsent(rest, root, newRoot);
  }

  /** Swapping the leading root of `root/dir/name` for `newRoot` when the root occurs nowhere after it. */
  lemma RootSwapped(root: string, newRoot: string, dir: string, name: string)
    requires root != [] && !Contains("/" + dir + "/" + name, root)
    ensures Replace(root + "/" + dir + "/" + name, root, newRoot) == newRoot + "/" + dir + "/" + name
  {
    RegroupBefore(root, dir, name, '/');
    ReplaceRoot(root, newRoot, "/" + dir + "/" + name);
    RegroupBefore(newRoot, dir, name, '/');
  }

  /** `<stem><ext>` holds no `word` when the stem holds none and the extension starts with a character foreign to `word`. */
  lemma SuffixClean(stem: string, ext: string, word: string)
    requires !Contains(stem, word) && ext != [] && ext[0] !in word && |ext| <= |word|
    ensures !Contains(stem + ext, word)
  {
    if Contains(ext[1..], word) {
      LongerNotContained(ext[1..], word);
    }
    assert stem + ext == stem + [ext[0]] + ext[1..];
    NotContainsAcross(stem, ext[0], ext[1..], word);
  }

  /** The extension `ext` of `<stem><ext>` becomes `newExt` when the stem lacks the extension's first character. */
  lemma SwapExtension(stem: string, ext: string, newExt: string)
    requires ext != [] && ext[0] !in stem
    ensures Replace(stem + ext, ext, newExt) == stem + newExt
  {
    ReplaceFreePrefix(stem, ext, ext, newExt);
    ReplaceHead(ext, [], newExt);
    assert ext + [] == ext;
  }

  /** Swapping the extension of `root/dir/<stem><ext>` touches nothing but the extension. */
  lemma ExtensionSwapped(root: string, dir: string, stem: string, ext: string, newExt: string)
    requires ext != [] && '/' !in ext && ext[0] !in dir && ext[0] !in stem && !Contains(root, ext)
    ensures Replace(root + "/" + dir + "/" + (stem + ext), ext, newExt) == root + "/" + dir + "/" + (stem + newExt)
  {
    MissingCharNotContained(dir, ext, 0);
    ReplaceInName(root, dir, stem + ext, ext, newExt);
    SwapExtension(stem, ext, newExt);
  }

  // ---------------------------------------------------------------------------
  // Splitting and joining

  /** Splitting `root/seg/rest` gives the root's segments, `seg`, then the rest's segments. */
  lemma SplitLayout(root: string, seg: string, rest: string)
    requires '/' !in seg
    ensures Split(root + "/" + seg + "/" + rest, '/') == Split(root, '/') + [seg] + Split(rest, '/')
  {
    RegroupAfter(root, seg, rest, '/');
    SplitAround(root, seg + "/" + rest, '/');
    SplitAround(seg, rest, '/');
    SplitWithoutSeparator(seg, '/');
    Regroup(Split(root, '/'), [seg], Split(rest, '/'));
  }

  /** Joining `root` segments, `place`, a directory `seg` and the name's segments. */
  lemma JoinLayout(root: seq<string>, place: string, seg: string, name: string)
    requires |root| >= 1
    ensures Join(root + ([place] + ([seg] + Split(name, '/'))), '/')
            == Join(root, '/') + "/" + place + "/" + seg + "/" + name
  {
    var n := Split(name, '/');
    JoinSplit(name, '/');
    JoinCons(seg, n, '/');
    JoinCons(place, [seg] + n, '/');
    JoinAppend(root, [place] + ([seg] + n), '/');
    RegroupAfter(place, seg, name, '/');
    RegroupThree(Join(root, '/'), place, seg, name, '/');
  }

  /** Joining the two-segment case: `place` goes right after the root. */
  lemma JoinPlaceAfterRoot(targetDir: string, seg: string, name: string, place: string)
    requires |Split(targetDir, '/')| == 2
    ensures Join(Insert(Split(targetDir, '/') + [seg] + Split(name, '/'), 2, place), '/')
            == targetDir + "/" + place + "/" + seg + "/" + name
  {
    var t, n := Split(targetDir, '/'), Split(name, '/');
    Regroup(t, [seg], n);
    InsertAfter(t, [seg] + n, place);
    JoinLayout(t, place, seg, name);
    JoinSplit(targetDir, '/');
  }

  /** Joining the one-segment case: `place` goes after the directory `seg`. */
  lemma JoinPlaceAfterSeg(targetDir: string, seg: string, name: string, place: string)
    requires '/' !in targetDir
    ensures Join(Insert(Split(targetDir, '/') + [seg] + Split(name, '/'), 2, place), '/')
            == targetDir + "/" + seg + "/" + place + "/" + name
  {
    var n := Split(name, '/');
    SplitWithoutSeparator(targetDir, '/');
    assert [targetDir] + [seg] + n == [targetDir, seg] + n;
    InsertAfter([targetDir, seg], n, place);
    JoinAppend([targetDir, seg], [place] + n, '/');
    assert Join([targetDir, seg], '/') == targetDir + "/" + seg by {
      JoinCons(targetDir, [seg], '/');
      assert [targetDir] + [seg] == [targetDir, seg];
    }
    assert Join([place] + n, '/') == place + "/" + name by {
      JoinCons(place, n, '/');
      JoinSplit(name, '/');
    }
    RegroupAfter(targetDir + "/" + seg, place, name, '/');
  }

  /** The name's segments after the directory `seg`, joined, under the root `c`. */
  lemma JoinTail(c: string, seg: string, name: string)
    ensures Join(Split(c, '/') + ([seg] + Split(name, '/')), '/') == c + "/" + seg + "/" + name
  {
    var n := Split(name, '/');
    JoinAppend(Split(c, '/'), [seg] + n, '/');
    JoinSplit(c, '/');
    JoinSplit(name, '/');
    JoinCons(seg, n, '/');
    RegroupAfter(c, seg, name, '/');
  }

  /** Joining `[a, b]`, `place` and more segments. */
  lemma JoinDeep(a: string, b: string, place: string, rest: seq<string>, sep: char)
    requires |rest| >= 1
    ensures Join([a, b] + ([place] + rest), sep) == a + [sep] + b + [sep] + place + [sep] + Join(rest, sep)
  {
    JoinCons(place, rest, sep);
    JoinCons(a, [b], sep);
    assert [a] + [b] == [a, b];
    JoinAppend([a, b], [place] + rest, sep);
    RegroupAfter(a + [sep] + b, place, Join(rest, sep), sep);
  }

  /** Joining the deep case: `place` goes between the root's second and third segments. */
  lemma JoinPlaceInsideRoot(a: string, b: string, c: string, seg: string, name: string, place: string)
    requires '/' !in a && '/' !in b
    ensures Join(Insert(Split(a + "/" + b + "/" + c, '/') + [seg] + Split(name, '/'), 2, place), '/')
            == a + "/" + b + "/" + place + "/" + c + "/" + seg + "/" + name
  {
    var cs, n := Split(c, '/'), Split(name, '/');
    var rest := cs + ([seg] + n);
    var inserted := Insert(Split(a + "/" + b + "/" + c, '/') + [seg] + n, 2, place);
    assert inserted == [a, b] + ([place] + rest) by {
      assert Split(a + "/" + b + "/" + c, '/') == [a, b] + cs by {
        SplitLayout(a, b, c);
        SplitWithoutSeparator(a, '/');
        assert [a] + [b] == [a, b];
      }
      assert [a, b] + cs + [seg] + n == [a, b] + rest;
      InsertAfter([a, b], rest, place);
    }
    JoinTail(c, seg, name);
    JoinDeep(a, b, place, rest, '/');
    RegroupThree(a + "/" + b + "/" + place, c, seg, name, '/');
  }

  // ---------------------------------------------------------------------------
  // Where the copied image lands

  /**
   * The copied image's `/`-segments are the target root's, then `images`, then the image
   * name's, with `place` inserted at index 2: it sits right after the root only when the
   * root has exactly two segments.
   */
  lemma CopiedImageSegments(sourceDir: string, targetDir: string, imgName: string, place: string)
    requires sourceDir != [] && !Contains("/" + "JPEGImages" + "/" + imgName, sourceDir)
    requires !Contains(targetDir, "JPEGImages") && !Contains(imgName, "JPEGImages")
    ensures CopiedImagePath(sourceDir, targetDir, ImagePath(sourceDir, imgName), place)
            == Join(Insert(Split(targetDir, '/') + ["images"] + Split(imgName, '/'), 2, place), '/')
  {
    RootSwapped(sourceDir, targetDir, "JPEGImages", imgName);
    ReplaceMiddle(targetDir, "JPEGImages", "images", imgName);
    SplitLayout(targetDir, "images", imgName);
  }

  /**
   * With a target root of exactly two segments (`a/b`) the copy goes to
   * `<target>/<place>/images/<name>`, inside the directory created for `place`.
   */
  lemma CopiedImageInPlaceDir(sourceDir: string, targetDir: string, imgName: string, place: string)
    requires sourceDir != [] && !Contains("/" + "JPEGImages" + "/" + imgName, sourceDir)
    requires !Contains(targetDir, "JPEGImages") && !Contains(imgName, "JPEGImages")
    requires |Split(targetDir, '/')| == 2
    ensures CopiedImagePath(sourceDir, targetDir, ImagePath(sourceDir, imgName), place)
            == targetDir + "/" + place + "/" + "images" + "/" + imgName
  {
    CopiedImageSegments(sourceDir, targetDir, imgName, place);
    JoinPlaceAfterRoot(targetDir, "images", imgName, place);
  }

  /** With a one-segment target root, `place` lands after `images`: `<target>/images/<place>/<name>`. */
  lemma CopiedImageShallowTarget(sourceDir: string, targetDir: string, imgName: string, place: string)
    requires sourceDir != [] && !Contains("/" + "JPEGImages" + "/" + imgName, sourceDir)
    requires !Contains(targetDir, "JPEGImages") && !Contains(imgName, "JPEGImages")
    requires '/' !in targetDir
    ensures CopiedImagePath(sourceDir, targetDir, ImagePath(sourceDir, imgName), place)
            == targetDir + "/" + "images" + "/" + place + "/" + imgName
  {
    CopiedImageSegments(sourceDir, targetDir, imgName, place);
    JoinPlaceAfterSeg(targetDir, "images", imgName, place);
  }

  /** With a deeper target root `a/b/c`, `place` lands inside it: `a/b/<place>/c/images/<name>`. */
  lemma CopiedImageDeepTarget(sourceDir: string, a: string, b: string, c: string, imgName: string, place: string)
    requires sourceDir != [] && !Contains("/" + "JPEGImages" + "/" + imgName, sourceDir)
    requires !Contains(a + "/" + b + "/" + c, "JPEGImages") && !Contains(imgName, "JPEGImages")
    requires '/' !in a && '/' !in b
    ensures CopiedImagePath(sourceDir, a + "/" + b + "/" + c, ImagePath(sourceDir, imgName), place)
            == a + "/" + b + "/" + place + "/" + c + "/" + "images" + "/" + imgName
  {
    CopiedImageSegments(sourceDir, a + "/" + b + "/" + c, imgName, place);
    JoinPlaceInsideRoot(a, b, c, "images", imgName, place);
  }

  // ---------------------------------------------------------------------------
  // The annotation file

  /** The `JPEGImages` to `Annotations` step on `<source>/JPEGImages/<stem>.jpg`. */
  lemma JpegDirRenamed(sourceDir: string, stem: string)
    requires !Contains(sourceDir, "JPEGImages") && !Contains(stem, "JPEGImages")
    ensures Replace(ImagePath(sourceDir, stem + ".jpg"), "JPEGImages", "Annotations")
            == sourceDir + "/" + "Annotations" + "/" + (stem + ".jpg")
  {
    SuffixClean(stem, ".jpg", "JPEGImages");
    ReplaceMiddle(sourceDir, "JPEGImages", "Annotations", stem + ".jpg");
  }

  /** The `.jpg` to `.xml` step on `<source>/Annotations/<stem>.jpg`. */
  lemma XmlExtension(sourceDir: string, stem: string)
    requires !Contains(sourceDir, ".jpg") && '.' !in stem
    ensures Replace(sourceDir + "/" + "Annotations" + "/" + (stem + ".jpg"), ".jpg", ".xml")
            == sourceDir + "/" + "Annotations" + "/" + (stem + ".xml")
  {
    ExtensionSwapped(sourceDir, "Annotations", stem, ".jpg", ".xml");
  }

  /**
   * For `<stem>.jpg` under a source root that holds neither `JPEGImages` nor `.jpg`, the
   * annotation is `<source>/Annotations/<stem>.xml`.
   */
  lemma AnnotationPathLayout(sourceDir: string, stem: string)
    requires !Contains(sourceDir, "JPEGImages") && !Contains(sourceDir, ".jpg")
    requires !Contains(stem, "JPEGImages") && '.' !in stem
    ensures AnnotationPath(ImagePath(sourceDir, stem + ".jpg")) == sourceDir + "/" + "Annotations" + "/" + (stem + ".xml")
  {
    JpegDirRenamed(sourceDir, stem);
    XmlExtension(sourceDir, stem);
  }

  /**
   * `<root>/<dir>/<stem>` holds no extension `ext` when the root does not and neither the
   * directory nor the stem holds the extension's dot.
   */
  lemma NoExtensionUnder(root: string, dir: string, stem: string, ext: string)
    requires ext != [] && '/' !in ext && ext[0] !in dir && ext[0] !in stem && !Contains(root, ext)
    ensures !Contains(root + "/" + dir + "/" + stem, ext)
  {
    MissingCharNotContained(stem, ext, 0);
    MissingCharNotContained(dir, ext, 0);
    NotContainsAcross(dir, '/', stem, ext);
    RegroupAfter(root, dir, stem, '/');
    NotContainsAcross(root, '/', dir + "/" + stem, ext);
  }

  /**
   * An index entry is a bare stem: `<stem>` with no dot names the image
   * `<source>/JPEGImages/<stem>` and the annotation `<source>/Annotations/<stem>`, since no
   * `.jpg` is there to become `.xml`.
   */
  lemma AnnotationPathOfStem(sourceDir: string, stem: string)
    requires !Contains(sourceDir, "JPEGImages") && !Contains(sourceDir, ".jpg")
    requires !Contains(stem, "JPEGImages") && '.' !in stem
    ensures AnnotationPath(ImagePath(sourceDir, stem)) == sourceDir + "/" + "Annotations" + "/" + stem
  {
    ReplaceMiddle(sourceDir, "JPEGImages", "Annotations", stem);
    NoExtensionUnder(sourceDir, "Annotations", stem, ".jpg");
    ReplaceAbsent(sourceDir + "/" + "Annotations" + "/" + stem, ".jpg", ".xml");
  }

  // ---------------------------------------------------------------------------
  // The label file

  /** `<target>/Annotations/<stem>.xml` becomes `<target>/labels/<stem>.xml`. */
  lemma LabelDirRenamed(targetDir: string, stem: string)
    requires !Contains(targetDir, "Annotations") && !Contains(stem, "Annotations")
    ensures Replace(targetDir + "/" + "Annotations" + "/" + (stem + ".xml"), "Annotations", "labels")
            == targetDir + "/" + "labels" + "/" + (stem + ".xml")
  {
    SuffixClean(stem, ".xml", "Annotations");
    ReplaceMiddle(targetDir, "Annotations", "labels", stem + ".xml");
  }

  /** Inserting `place` into `<root>/<seg>/<name>` for a two-segment root puts it right after the root. */
  lemma InsertPlaceAfterRoot(root: string, seg: string, name: string, place: string)
    requires '/' !in seg && |Split(root, '/')| == 2
    ensures InsertPlace(root + "/" + seg + "/" + name, place) == root + "/" + place + "/" + seg + "/" + name
  {
    SplitLayout(root, seg, name);
    JoinPlaceAfterRoot(root, seg, name, place);
  }

  /** The `.xml` to `.txt` step on `<target>/<place>/labels/<stem>.xml`. */
  lemma TxtExtension(targetDir: string, place: string, stem: string)
    requires !Contains(targetDir, ".xml") && !Contains(place, ".xml") && '.' !in stem
    ensures Replace(targetDir + "/" + place + "/" + "labels" + "/" + (stem + ".xml"), ".xml", ".txt")
            == targetDir + "/" + place + "/" + "labels" + "/" + (stem + ".txt")
  {
    NotContainsAcross(targetDir, '/', place, ".xml");
    ExtensionSwapped(targetDir + "/" + place, "labels", stem, ".xml", ".txt");
  }

  /**
   * The label file's `/`-segments are the target root's, then `labels`, then `<stem>.xml`,
   * with `place` inserted at index 2, before `.xml` becomes `.txt`.
   */
  lemma LabelSegments(sourceDir: string, targetDir: string, stem: string, place: string)
    requires sourceDir != [] && !Contains(sourceDir, "JPEGImages") && !Contains(sourceDir, ".jpg")
    requires !Contains("/" + "Annotations" + "/" + (stem + ".xml"), sourceDir)
    requires !Contains(targetDir, "Annotations")
    requires !Contains(stem, "JPEGImages") && !Contains(stem, "Annotations") && '.' !in stem
    ensures LabelPath(sourceDir, targetDir, AnnotationPath(ImagePath(sourceDir, stem + ".jpg")), place)
            == Replace(Join(Insert(Split(targetDir, '/') + ["labels"] + Split(stem + ".xml", '/'), 2, place), '/'), ".xml", ".txt")
  {
    AnnotationPathLayout(sourceDir, stem);
    RootSwapped(sourceDir, targetDir, "Annotations", stem + ".xml");
    LabelDirRenamed(targetDir, stem);
    SplitLayout(targetDir, "labels", stem + ".xml");
  }

  /**
   * For `<stem>.jpg` and a two-segment target root, the label file is
   * `<target>/<place>/labels/<stem>.txt`: beside the copied image, in the directory
   * created for `place`.
   */
  lemma LabelPathLayout(sourceDir: string, targetDir: string, stem: string, place: string)
    requires sourceDir != [] && !Contains(sourceDir, "JPEGImages") && !Contains(sourceDir, ".jpg")
    requires !Contains("/" + "Annotations" + "/" + (stem + ".xml"), sourceDir)
    requires !Contains(targetDir, "Annotations") && !Contains(targetDir, ".xml") && |Split(targetDir, '/')| == 2
    requires !Contains(place, ".xml")
    requires !Contains(stem, "JPEGImages") && !Contains(stem, "Annotations") && '.' !in stem
    ensures LabelPath(sourceDir, targetDir, AnnotationPath(ImagePath(sourceDir, stem + ".jpg")), place)
            == targetDir + "/" + place + "/" + "labels" + "/" + (stem + ".txt")
  {
    LabelSegments(sourceDir, targetDir, stem, place);
    JoinPlaceAfterRoot(targetDir, "labels", stem + ".xml", place);
    TxtExtension(targetDir, place, stem);
  }

  /**
   * For a bare index entry `<stem>` and a two-segment target root, the label file is
   * `<target>/<place>/labels/<stem>`: no `.xml` is there to become `.txt`.
   */
  lemma LabelPathOfStem(sourceDir: string, targetDir: string, stem: string, place: string)
    requires sourceDir != [] && !Contains(sourceDir, "JPEGImages") && !Contains(sourceDir, ".jpg")
    requires !Contains("/" + "Annotations" + "/" + stem, sourceDir)
    requires !Contains(targetDir, "Annotations") && !Contains(targetDir, ".xml") && |Split(targetDir, '/')| == 2
    requires !Contains(place, ".xml")
    requires !Contains(stem, "JPEGImages") && !Contains(stem, "Annotations") && '.' !in stem
    ensures LabelPath(sourceDir, targetDir, AnnotationPath(ImagePath(sourceDir, stem)), place)
            == targetDir + "/" + place + "/" + "labels" + "/" + stem
  {
    AnnotationPathOfStem(sourceDir, stem);
    RootSwapped(sourceDir, targetDir, "Annotations", stem);
    ReplaceMiddle(targetDir, "Annotations", "labels", stem);
    InsertPlaceAfterRoot(targetDir, "labels", stem, place);
    NotContainsAcross(targetDir, '/', place, ".xml");
    NoExtensionUnder(targetDir + "/" + place, "labels", stem, ".xml");
    ReplaceAbsent(targetDir + "/" + place + "/" + "labels" + "/" + stem, ".xml", ".txt");
  }

  /** With a one-segment target root, `place` lands after `labels`: `<target>/labels/<place>/<stem>.txt`. */
  lemma LabelPathShallowTarget(sourceDir: string, targetDir: string, stem: string, place: string)
    requires sourceDir != [] && !Contains(sourceDir, "JPEGImages") && !Contains(sourceDir, ".jpg")
    requires !Contains("/" + "Annotations" + "/" + (stem + ".xml"), sourceDir)
    requires !Contains(targetDir, "Annotations") && !Contains(targetDir, ".xml") && '/' !in targetDir
    requires '.' !in place
    requires !Contains(stem, "JPEGImages") && !Contains(stem, "Annotations") && '.' !in stem
    ensures LabelPath(sourceDir, targetDir, AnnotationPath(ImagePath(sourceDir, stem + ".jpg")), place)
            == targetDir + "/" + "labels" + "/" + place + "/" + (stem + ".txt")
  {
    LabelSegments(sourceDir, targetDir, stem, place);
    JoinPlaceAfterSeg(targetDir, "labels", stem + ".xml", place);
    ShallowTxtExtension(targetDir, place, stem);
  }

  /** The `.xml` to `.txt` step on `<target>/labels/<place>/<stem>.xml`. */
  lemma ShallowTxtExtension(targetDir: string, place: string, stem: string)
    requires !Contains(targetDir, ".xml") && '.' !in place && '.' !in stem
    ensures Replace(targetDir + "/" + "labels" + "/" + place + "/" + (stem + ".xml"), ".xml", ".txt")
            == targetDir + "/" + "labels" + "/" + place + "/" + (stem + ".txt")
  {
    MissingCharNotContained("labels", ".xml", 0);
    NotContainsAcross(targetDir, '/', "labels", ".xml");
    ExtensionSwapped(targetDir + "/" + "labels", place, stem, ".xml", ".txt");
  }

  /** With a deeper target root `a/b/c`, `place` lands inside it: `a/b/<place>/c/labels/<stem>.txt`. */
  lemma LabelPathDeepTarget(sourceDir: string, a: string, b: string, c: string, stem: string, place: string)
    requires sourceDir != [] && !Contains(sourceDir, "JPEGImages") && !Contains(sourceDir, ".jpg")
    requires !Contains("/" + "Annotations" + "/" + (stem + ".xml"), sourceDir)
    requires !Contains(a + "/" + b + "/" + c, "Annotations") && '/' !in a && '/' !in b
    requires !Contains(a + "/" + b, ".xml") && !Contains(c, ".xml") && !Contains(place, ".xml")
    requires !Contains(stem, "JPEGImages") && !Contains(stem, "Annotations") && '.' !in stem
    ensures LabelPath(sourceDir, a + "/" + b + "/" + c, AnnotationPath(ImagePath(sourceDir, stem + ".jpg")), place)
            == a + "/" + b + "/" + place + "/" + c + "/" + "labels" + "/" + (stem + ".txt")
  {
    LabelSegments(sourceDir, a + "/" + b + "/" + c, stem, place);
    JoinPlaceInsideRoot(a, b, c, "labels", stem + ".xml", place);
    NotContainsAcross(a + "/" + b, '/', place, ".xml");
    NotContainsAcross(a + "/" + b + "/" + place, '/', c, ".xml");
    ExtensionSwapped(a + "/" + b + "/" + place + "/" + c, "labels", stem, ".xml", ".txt");
  }

  // ---------------------------------------------------------------------------
  // A source root that recurs

  /** Replacing `d` in `<front><d><ext>`, where only that `d` occurs. */
  lemma SecondCharReplaced(d: char, front: string, ext: string, t: string)
    requires d !in front && d !in ext
    ensures Replace(front + ([d] + ext), [d], t) == front + (t + ext)
  {
    ReplaceFreePrefix(front, [d] + ext, [d], t);
    ReplaceHead([d], ext, t);
    MissingCharNotContained(ext, [d], 0);
    ReplaceAbsent(ext, [d], t);
  }

  /**
   * Replacing a one-character root `d` of `<d>/<dir>/<stem><d><ext>` also rewrites the
   * second `d`.
   */
  lemma RootCharReplaced(d: char, dir: string, stem: string, ext: string, t: string)
    requires d != '/' && d !in dir && d !in stem && d !in ext
    ensures Replace([d] + "/" + dir + "/" + (stem + ([d] + ext)), [d], t) == t + "/" + dir + "/" + (stem + (t + ext))
  {
    var front := "/" + dir + "/" + stem;
    calc {
      Replace([d] + "/" + dir + "/" + (stem + ([d] + ext)), [d], t);
      { RegroupPath([d], dir, stem, [d] + ext); }
      Replace([d] + (front + ([d] + ext)), [d], t);
      { ReplaceHead([d], front + ([d] + ext), t); }
      t + Replace(front + ([d] + ext), [d], t);
      { SecondCharReplaced(d, front, ext, t); }
      t + (front + (t + ext));
      { RegroupPath(t, dir, stem, t + ext); }
      t + "/" + dir + "/" + (stem + (t + ext));
    }
  }

  /** `<root>/<dir>/` followed by `<stem><rest>`, regrouped around the root. */
  lemma RegroupPath(root: string, dir: string, stem: string, rest: string)
    ensures root + "/" + dir + "/" + (stem + rest) == root + ("/" + dir + "/" + stem + rest)
  {
  }

  /**
   * `replace(source_dir, target_dir)` rewrites every occurrence of the source root, not
   * only the leading one: with `--source_dir .` the dot of `<stem>.jpg` becomes the
   * target root too, so the copy is named `<stem><target>jpg`.
   */
  lemma DottedRootCopy(t: string, stem: string, place: string)
    requires |Split(t, '/')| == 2 && !Contains(t, "JPEGImages") && '.' !in stem
    requires !Contains(stem + (t + "jpg"), "JPEGImages")
    ensures CopiedImagePath(".", t, ImagePath(".", stem + ".jpg"), place)
            == t + "/" + place + "/" + "images" + "/" + (stem + (t + "jpg"))
  {
    assert ".jpg" == "." + "jpg";
    RootCharReplaced('.', "JPEGImages", stem, "jpg", t);
    ReplaceMiddle(t, "JPEGImages", "images", stem + (t + "jpg"));
    InsertPlaceAfterRoot(t, "images", stem + (t + "jpg"), place);
  }

  /**
   * The same for the label file: `<stem>.xml` becomes `<stem><target>xml`, which no
   * longer holds `.xml`, so the `.txt` step leaves it alone.
   */
  lemma DottedRootLabel(t: string, stem: string, place: string)
    requires |Split(t, '/')| == 2 && !Contains(t, "Annotations") && '.' !in t && '.' !in place
    requires '.' !in stem && !Contains(stem, "JPEGImages") && !Contains(stem + (t + "xml"), "Annotations")
    ensures LabelPath(".", t, AnnotationPath(ImagePath(".", stem + ".jpg")), place)
            == t + "/" + place + "/" + "labels" + "/" + (stem + (t + "xml"))
  {
    LongerNotContained(".", "JPEGImages");
    LongerNotContained(".", ".jpg");
    AnnotationPathLayout(".", stem);
    assert ".xml" == "." + "xml";
    RootCharReplaced('.', "Annotations", stem, "xml", t);
    ReplaceMiddle(t, "Annotations", "labels", stem + (t + "xml"));
    InsertPlaceAfterRoot(t, "labels", stem + (t + "xml"), place);
    NoDotNoXml(t, place, "labels", stem + (t + "xml"));
  }

  /** A path without a dot holds no `.xml`, so the `.txt` step leaves it alone. */
  lemma NoDotNoXml(root: string, place: string, dir: string, name: string)
    requires '.' !in root && '.' !in place && '.' !in dir && '.' !in name
    ensures Replace(root + "/" + place + "/" + dir + "/" + name, ".xml", ".txt") == root + "/" + place + "/" + dir + "/" + name
  {
    var path := root + "/" + place + "/" + dir + "/" + name;
    MissingCharNotContained(path, ".xml", 0);
    ReplaceAbsent(path, ".xml", ".txt");
  }
}
