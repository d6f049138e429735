# voc2yolov5 in Dafny

A verified model of `voc2yolov5.py`, a one-shot script that turns a PASCAL VOC dataset
into YOLOv5's layout. The script's logic, without its file I/O, is modelled here and
proved correct:

- **Label map** (`LabelMap`): the `pascal_label_map.pbtxt` loop of `__main__`.
  - It walks the stripped lines and skips brace lines.
  - An `id:` line sets the current `id`.
  - A `name: '...'` line appends the quoted name to `class_names` and stores it in `classes_dict` under the current `id`.
  - `LoadLabelMap` is the loop itself. It is proved equal to the fold `ParseLabelMap`, and the lemmas prove the fold's properties.
  - The `id` read before any id line is Python's built-in function `id` (`IdValue.BuiltinId`). `int(label)` on it raises `TypeError` later.
- **Box transform** (`BoxTransform`): in `voc2yolo`, the class lookup in `classes_dict` and the corner-to-centre normalisation.
  - `BuildLabelLines` is the loop that builds `lines`.
  - `Truncate` is the `int(float(...))` that `xml_reader` applies to the XML's corners.
  - Arithmetic is exact over `real`.
- **Paths** (`Paths`): `img_path`, `xml_path`, the copied-image path and the label path.
  - They are built with Python's `str.replace` (left to right, non-overlapping), `split('/')`, `list.insert(2, place)` and `'/'.join`. All four are modelled in `PyStr`.
- **Index files** (`IndexFiles`): which index file is opened for `train` and `val`, and the loop that takes `line.strip().split(" ")[0]` from every line.
- **Convert** (`Convert`): one call of `voc2yolo`, and where its outputs land relative to the directories `__main__` creates.

`PyStr` holds the Python string built-ins the script uses:

- `str.strip`, with the white-space set of `str.isspace`;
- `in` on strings;
- `split` and `join` on one character;
- `replace`, including the empty pattern;
- `list.insert`;
- `int()` on a string: sign, surrounding white space and digit-group underscores, with no limit on the number of digits. The white space `int()` skips is that of `strip()` without the separators U+001C..U+001F, which `strip()` removes and `int()` rejects.

`Wrappers` holds `Option` and `Result`.

Quirks of the code that the model keeps:

- **Bare index entries.** VOC index files list bare image stems. The code appends no extension: `img_path` is `<source>/JPEGImages/<stem>` and `xml_path` is `<source>/Annotations/<stem>`. `Paths.AnnotationPathOfStem` states this. The label file is then `<target>/<place>/labels/<stem>`, with no `.txt`, because line 50 finds no `.xml` to replace (`Paths.LabelPathOfStem`). The `.jpg`/`.xml` layout (`Paths.AnnotationPathLayout`) appears only when a list entry already carries `.jpg`.
- **Where `place` lands.** `place` is inserted at index 2 of the `/`-split path. So it lands in `<target>/<place>/images` and `<target>/<place>/labels` only when the target root has exactly two segments (`Paths.CopiedImageInPlaceDir`, `Paths.LabelPathLayout`). With a one-segment root it lands after `images` or `labels` (`Paths.CopiedImageShallowTarget`, `Paths.LabelPathShallowTarget`). With a deeper root it lands inside the root (`Paths.CopiedImageDeepTarget`, `Paths.LabelPathDeepTarget`).
- **A source root that recurs.** `replace(source_dir, target_dir)` rewrites every occurrence of the source root, not only the leading one. With `--source_dir .` the dot before the extension is rewritten too: for target `a/b`, `x.jpg` is copied to `a/b/train/images/xa/bjpg` and labelled in `a/b/train/labels/xa/bxml` (`Paths.DottedRootCopy`, `Paths.DottedRootLabel`). The other path lemmas therefore require that the source root does not occur after its leading position.
- **Names containing `id`.** The `id` test comes first, so a class name containing `id` (such as `kid`) turns its name line into an id line. That line then fails to parse (`LabelMap.NameHoldingIdFails`).

## Model

| member | source | states |
|---|---|---|
| LabelMap.Classify | voc2yolov5.py:72-77 | the branch a line takes, tested in the source's order on the stripped line: brace, then `id`, then `name`, else nothing; its order is stated by `BraceLineIgnored` and `IdTestedBeforeName` |
| LabelMap.IdOf | voc2yolov5.py:76 | `int()` of the text after the last colon, `None` for `ValueError`; `IdLineRead` and `NameEntryNotInteger` state what it reads |
| LabelMap.QuotedName | voc2yolov5.py:78 | the piece before the last quote, which is the text between the last two quotes when there are two, `None` for `IndexError`; `QuotedNameFound` states when it exists |
| LabelMap.Step | voc2yolov5.py:72-80 | one loop iteration on `id`, `class_names` and `classes_dict`, or the exception it raises; its effect over a whole file is stated by `ParseFromNames`, `ParseFromLastId` and `ParseFromKeys` |
| LabelMap.LoadLabelMap | voc2yolov5.py:68-80 | the line loop returns exactly the fold `ParseLabelMap`: the final `class_names` and `classes_dict`, or the exception of the first line that raises |
| LabelMap.BraceLineIgnored | voc2yolov5.py:72-74 | a line whose stripped text holds `{` or `}` can be removed without changing the result, even if it also holds `id` or `name` |
| LabelMap.IdTestedBeforeName | voc2yolov5.py:75-78 | a line holding both `id` and `name` takes the id branch and leaves `class_names` and `classes_dict` unchanged |
| LabelMap.LabelMapFails | voc2yolov5.py:75-78 | parsing fails if and only if some line raises, and then with the error of the first such line |
| LabelMap.ParseFromFails | voc2yolov5.py:71-80 | from any state, the loop fails exactly when some line raises, and with the first failing line's error |
| LabelMap.ClassNamesInFileOrder | voc2yolov5.py:77-79 | `class_names` is the list of quoted names of the name lines in file order, so its length (`nc`) is the number of name lines |
| LabelMap.ParseFromNames | voc2yolov5.py:77-79 | a run appends exactly the declared names, in order, to the `class_names` it starts with |
| LabelMap.ParseFromLastId | voc2yolov5.py:75-76 | after the loop `id` holds the value of the last id line, or the built-in when there is none |
| LabelMap.NameMapsToPrecedingId | voc2yolov5.py:75-80 | the last name line for a name stores in `classes_dict` the id of the last id line before it |
| LabelMap.EntryKept | voc2yolov5.py:80 | lines that do not name `name` leave its dictionary entry, or its absence, unchanged |
| LabelMap.DictKeysAreClassNames | voc2yolov5.py:79-80 | the keys of `classes_dict` are exactly the names in `class_names` |
| LabelMap.ParseFromKeys | voc2yolov5.py:79-80 | each step keeps the dictionary's keys equal to the set of class names |
| LabelMap.QuotedNameFound | voc2yolov5.py:78 | `split("'")[-2]` exists exactly when the line holds a quote, and the name it gives holds none |
| LabelMap.IdLineRead | voc2yolov5.py:75-76 | the line `id: n` is an id line and is read back as the integer `n`, for any number of digits |
| LabelMap.IdValueRead | voc2yolov5.py:76 | `int()` reads back the decimal digits of `n` after the space following the colon, for any number of digits |
| LabelMap.NameLineRead | voc2yolov5.py:77-78 | `name: '<name>'` is a name line naming `<name>` when the name holds no quote, no brace and no `id` |
| LabelMap.SeparatedIdRejected | voc2yolov5.py:72-76 | for `id:` then U+001C..U+001F then more text, `int()` rejects the text after the colon: `strip()` keeps the inner separator and `int()` does not skip it |
| LabelMap.SeparatedIdLineFails | voc2yolov5.py:72-76 | such a line without a brace takes the id branch and raises there |
| LabelMap.SeparatedIdExample | voc2yolov5.py:72-76 | `id:\x1c5` does not read as the id 5 |
| LabelMap.NameHoldingIdFails | voc2yolov5.py:75-76 | `name: '<name>'` for a name containing `id` takes the id branch and raises, because `int()` rejects the quoted text |
| BoxTransform.ReadObject | voc2yolov5.py:18-21 | the object record with each corner truncated toward zero; `ReadObjectOrdered` states its bounds |
| BoxTransform.Normalize | voc2yolov5.py:36-39 | `cx, cy, w, h` from the corners and the image size, exactly; `NormalizeInRange` and the two inverse lemmas state its properties |
| BoxTransform.Truncate | voc2yolov5.py:18-21 | `int(float)` rounds toward zero: the result is within one of the input and never farther from zero; `TruncateIntegral` and `ReadObjectOrdered` state what this does to corners |
| BoxTransform.TruncateIntegral | voc2yolov5.py:18-21 | a corner written as a whole number is read as that number |
| BoxTransform.ReadObjectOrdered | voc2yolov5.py:14-22 | reading an object keeps its name, moves each corner by less than one pixel toward zero, and keeps corners ordered |
| BoxTransform.TruncationMayCollapse | voc2yolov5.py:18-21 | a box with fractional corners can be read as a zero-width box |
| BoxTransform.NormalizeInRange | voc2yolov5.py:36-39 | for a box inside a positive image, `cx`, `cy` lie in (0, 1) and `w`, `h` in (0, 1] |
| BoxTransform.DenormalizeNormalize | voc2yolov5.py:36-39 | `x = width*(cx - w/2)`, `x2 = width*(cx + w/2)`, and likewise for y: the transform is inverted exactly |
| BoxTransform.NormalizeDenormalize | voc2yolov5.py:36-39 | every centre box is the transform of its corners, so the transform is onto |
| BoxTransform.ConvertObject | voc2yolov5.py:33-40 | an object converts if and only if its name is in `classes_dict`, the size is non-zero and the label is an integer; a missing name is `KeyError`; the class index is `label - 1` |
| BoxTransform.RecordInRange | voc2yolov5.py:33-40 | a converted box inside the image has all four record values in [0, 1] |
| BoxTransform.RecordRecoversCorners | voc2yolov5.py:33-40 | a record's box gives the object's pixel corners back |
| BoxTransform.BuildLabelLines | voc2yolov5.py:31-41 | `lines` holds one record per object, in object order, if and only if every object converts; otherwise the error is that of the first failing object |
| BoxTransform.CatExample | voc2yolov5.py:33-40 | `cat` with id 1 in a 100x200 image with box (10, 20, 30, 40) gives `0 0.2 0.15 0.2 0.1` |
| Paths.ImagePath | voc2yolov5.py:27 | `<source>/JPEGImages/<img_name>`; the lemmas below state what the later steps make of it |
| Paths.AnnotationPath | voc2yolov5.py:28 | the two `replace` steps on the image path; `AnnotationPathLayout` and `AnnotationPathOfStem` state the result |
| Paths.InsertPlace | voc2yolov5.py:44-45 | split at `/`, `insert(2, place)`, join with `/`; `CopiedImageSegments` and `InsertPlaceAfterRoot` state where `place` lands |
| Paths.CopiedImagePath | voc2yolov5.py:43-45 | the copy path; stated for each shape of target root by the `CopiedImage` lemmas |
| Paths.LabelPath | voc2yolov5.py:48-50 | the label path; stated for `<stem>.jpg` and each shape of target root by `LabelPathLayout`, `LabelPathShallowTarget` and `LabelPathDeepTarget`, and for a bare stem by `LabelPathOfStem` |
| Paths.OutputDirs | voc2yolov5.py:63-66 | the four directories made before any conversion; `Convert.SubsetDirsCreated` states which they are |
| Paths.LabelSegments | voc2yolov5.py:48-50 | the label path is `place` inserted at index 2 of the segments of `<target>/labels/<stem>.xml`, then `.xml` becomes `.txt` |
| Paths.LabelPathOfStem | voc2yolov5.py:48-50 | a bare index entry `<stem>` and a two-segment target root give the label file `<target>/<place>/labels/<stem>`, with no `.txt` |
| Paths.LabelPathShallowTarget | voc2yolov5.py:48-50 | for a one-segment target root the label file goes to `<target>/labels/<place>/<stem>.txt` |
| Paths.LabelPathDeepTarget | voc2yolov5.py:48-50 | for a target root `a/b/c` the label file goes to `a/b/<place>/c/labels/<stem>.txt` |
| Paths.DottedRootCopy | voc2yolov5.py:43-45 | with `--source_dir .` the dot of `<stem>.jpg` is replaced too: the copy is `<target>/<place>/images/<stem><target>jpg` |
| Paths.DottedRootLabel | voc2yolov5.py:48-50 | with `--source_dir .` the label file is `<target>/<place>/labels/<stem><target>xml`, which the `.txt` step leaves alone |
| Paths.AnnotationPathLayout | voc2yolov5.py:27-28 | `<source>/JPEGImages/<stem>.jpg` becomes `<source>/Annotations/<stem>.xml` |
| Paths.AnnotationPathOfStem | voc2yolov5.py:27-28 | a bare stem from the index file gives `<source>/Annotations/<stem>`, with no extension |
| Paths.JpegDirRenamed | voc2yolov5.py:28 | the first `replace` renames only the `JPEGImages` directory |
| Paths.XmlExtension | voc2yolov5.py:28 | the second `replace` changes only the `.jpg` extension |
| Paths.CopiedImageSegments | voc2yolov5.py:43-45 | the copy path is `place` inserted at index 2 of the segments of `<target>/images/<name>` |
| Paths.CopiedImageInPlaceDir | voc2yolov5.py:43-45 | for a two-segment target root the copy goes to `<target>/<place>/images/<name>` |
| Paths.CopiedImageShallowTarget | voc2yolov5.py:43-45 | for a one-segment target root the copy goes to `<target>/images/<place>/<name>` |
| Paths.CopiedImageDeepTarget | voc2yolov5.py:43-45 | for a target root `a/b/c` the copy goes to `a/b/<place>/c/images/<name>` |
| Paths.LabelPathLayout | voc2yolov5.py:48-50 | for a two-segment target root the label file of `<stem>.jpg` is `<target>/<place>/labels/<stem>.txt` |
| Paths.RootSwapped | voc2yolov5.py:43 | replacing `source_dir` by `target_dir` swaps the root and nothing else, when the root does not recur |
| Paths.ReplaceInName | voc2yolov5.py:43 | a directory-name `replace` whose pattern is absent from the root and directory acts on the file name alone |
| Paths.InsertPlaceAfterRoot | voc2yolov5.py:48-50 | split, `insert(2, place)`, join on a two-segment root puts `place` right after the root |
| Paths.SwapExtension | voc2yolov5.py:50 | the extension of `<stem><ext>` is replaced when the stem lacks its first character |
| IndexFiles.ImageName | voc2yolov5.py:93 | `line.strip().split(" ")[0]`; `ImageNameIsFirstToken` and `ImageNameShape` state what it is |
| IndexFiles.IndexFilePath | voc2yolov5.py:91 | the index path is defined if and only if `class_names` is non-empty; otherwise `class_names[0]` raises `IndexError` |
| IndexFiles.IndexFileOfFirstClass | voc2yolov5.py:91-100 | only the first class name decides the index files, and `train` and `val` read different files |
| IndexFiles.ReadImageNames | voc2yolov5.py:92-94 | one name per line, in line order, each the first `" "`-token of the stripped line (the `val` loop at 101-103 is the same) |
| IndexFiles.ImageNameIsFirstToken | voc2yolov5.py:93 | `split(" ")[0]` is the stripped line up to its first space |
| IndexFiles.ImageNameShape | voc2yolov5.py:93 | the name is a space-free prefix of the stripped line, followed there by a space or by nothing |
| IndexFiles.EntryName | voc2yolov5.py:93 | a VOC index line `<name> <flag>` yields `<name>` |
| Convert.Voc2Yolo | voc2yolov5.py:26-50 | one image: succeeds if and only if every object converts; then it yields the four derived paths and one record per object; otherwise the first failing object's error |
| Convert.SubsetDirsCreated | voc2yolov5.py:63-66 | `<target>/<train or val>/<images or labels>` is one of the four directories created |
| Convert.OutputsInCreatedDirs | voc2yolov5.py:43-50 | for a two-segment target root, the copy and the label file of `<stem>.jpg` land in the directories created for their subset |
| PyStr.Strip | voc2yolov5.py:72 | `str.strip()` over the `str.isspace` set; `StripIsSlice` states its result |
| PyStr.Contains | voc2yolov5.py:73-77 | the substring test `t in s`; `ContainsIff` states it |
| PyStr.Split | voc2yolov5.py:43 | `split` on one character, never empty; `JoinSplit`, `SplitJoin` and `SplitAround` state it |
| PyStr.Join | voc2yolov5.py:45 | `sep.join(parts)`; `JoinSplit` and `SplitJoin` state it |
| PyStr.Replace | voc2yolov5.py:28 | `str.replace`, left to right without overlap; the `Replace` lemmas state it |
| PyStr.Insert | voc2yolov5.py:44 | `list.insert(i, x)`: one item longer, `x` at `i` with the rest shifted, or appended when `i` is past the end |
| PyStr.ParseInt | voc2yolov5.py:76 | `int()` on a string, `None` for `ValueError`; `ParseIntOfDecimal`, `ParseIntRejectsSeparator` and `LeadingNonDigit` state it |
| PyStr.IntStrip | voc2yolov5.py:76 | the white space `int()` skips at both ends, which leaves U+001C..U+001F in place; `ParseIntRejectsSeparator` states the consequence |
| PyStr.ParseIntRejectsSeparator | voc2yolov5.py:76 | text starting with one of U+001C..U+001F is a `ValueError`, though `strip()` would remove that character |
| PyStr.StripIsSlice | voc2yolov5.py:72 | `strip()` keeps a contiguous slice with no white space at either end |
| PyStr.ContainsIff | voc2yolov5.py:73 | `t in s` holds if and only if `t` occurs at some index of `s` |
| PyStr.JoinSplit | voc2yolov5.py:43-45 | no piece of `split(sep)` holds `sep`, and joining the pieces gives the string back |
| PyStr.SplitJoin | voc2yolov5.py:43-45 | splitting the join of separator-free pieces gives the pieces back |
| PyStr.SplitAround | voc2yolov5.py:43 | splitting `a + sep + b` is splitting `a`, then `b` |
| PyStr.InsertAfter | voc2yolov5.py:44 | `insert(i, x)` on a list of at least `i` items puts `x` after the first `i` items |
| PyStr.ReplaceAbsent | voc2yolov5.py:28 | `replace` leaves a string with no occurrence of the pattern unchanged |
| PyStr.ReplaceAcross | voc2yolov5.py:28 | a prefix that has no occurrence and ends in a character foreign to the pattern is copied unchanged |
| PyStr.ParseIntOfDecimal | voc2yolov5.py:76 | `int()` reads the decimal text of every integer back as that integer, with no limit on the number of digits |
| PyStr.LeadingNonDigit | voc2yolov5.py:76 | text that starts with a non-digit is not a digit group |

## Left out

- XML parsing (voc2yolov5.py:9-21) is done by `xml.etree.ElementTree`. The parsed `(width, height, objects)` tuple is an input (`BoxTransform.Annotation`). Only the `int(float(...))` truncation is modelled, and `float()` of the XML text is taken as already done (`RawObject`).
- File I/O is left out:
  - opening and reading the label map and index files, which become sequences of lines;
  - `shutil.copy` and writing the label file; `Convert.Voc2Yolo` returns what would be copied and written;
  - `os.makedirs`, which is kept only as the list `Paths.OutputDirs`.
- `data.yaml` (voc2yolov5.py:83-87) is left out, because `yaml.safe_dump` is a foreign library. Its two values are covered: `nc` by `LabelMap.ClassNamesInFileOrder`, `names` by the class list itself.
- `argparse` (voc2yolov5.py:58-61) is left out; `args.source_dir` and `args.target_dir` become parameters, and so does the global `classes_dict`.
- `print` calls (voc2yolov5.py:46-47, 51-52) are left out, since they are output only.
- BoxTransform.BuildLabelLines: its records hold the exact values; the `"%d %.6f %.6f %.6f %.6f\n"` text and IEEE float rounding (voc2yolov5.py:40) are not modelled.
- The loops that call `voc2yolo` for each listed name (voc2yolov5.py:95-96, 104-105) are not modelled as loops. Each call is `Convert.Voc2Yolo` on one name. The sequence of calls adds the I/O, and the run stops at the first call that raises: the remaining `train` names and the whole `val` subset are then skipped.
- Paths.InsertPlace: the in-place `list.insert` on a local list is modelled as a function returning the new list; the list is never shared, so no aliasing is lost.
- Paths.LabelPath: for a bare stem the layout is proved for a two-segment target root only (`Paths.LabelPathOfStem`); the one-segment and deeper roots are proved for `<stem>.jpg` names. Stems holding a dot are not covered, because `.jpg` or `.xml` inside a stem is rewritten too.
- PyStr.ParseInt: only ASCII digits are accepted; `int()` also accepts other Unicode decimal digits. Nor is CPython's default limit of 4300 digits modelled, beyond which `int()` raises `ValueError`: the limit is interpreter configuration (`PYTHONINTMAXSTRDIGITS`, where 0 means no limit), and the model is `int()` without it.
- `readlines()` keeps each line's `\n`. The model takes lines as given; `strip()` removes the newline in every branch, so nothing depends on it.
