/**
 * The image lists `__main__` reads for the `train` and `val` subsets: which index file it
 * opens, and the image name it takes from each line of that file.
 */
module IndexFiles {
  import opened Wrappers
  import opened PyStr

  /**
   * `f"{args.source_dir}/ImageSets/Main/{class_names[0]}_{subset}.txt"`: the index file is
   * named after the first class of the label map; an empty class list raises `IndexError`
   * (modelled as `None`).
   */
  function IndexFilePath(sourceDir: string, classNames: seq<string>, subset: string): (r: Option<string>)
    ensures r.None? <==> classNames == []
  {
    if classNames == [] then None
    else Some(sourceDir + "/ImageSets/Main/" + classNames[0] + "_" + subset + ".txt")
  }

  /** `line.strip().split(" ")[0]`. */
  function ImageName(line: string): string
  {
    Split(Strip(line), ' ')[0]
  }

  /**
   * The loop `for line in f.readlines(): ...append(line.strip().split(" ")[0])`: one name
   * per line, in line order.
   */
  method ReadImageNames(lines: seq<string>) returns (names: seq<string>)
    ensures |names| == |lines|
    ensures forall k :: 0 <= k < |lines| ==> names[k] == ImageName(lines[k])
  {
    names := [];
    var i := 0;
    while i < |lines|
      invariant 0 <= i <= |lines|
      invariant |names| == i
      invariant forall k :: 0 <= k < i ==> names[k] == ImageName(lines[k])
    {
      var fileName := ImageName(lines[i]);
      names := names + [fileName];
      i := i + 1;
    }
  }

  // ---------------------------------------------------------------------------
  // Properties

  /** Only the first class name matters, and the two subsets read different files. */
  lemma IndexFileOfFirstClass(sourceDir: string, classNames: seq<string>, others: seq<string>)
    requires classNames != [] && others != [] && classNames[0] == others[0]
    ensures IndexFilePath(sourceDir, classNames, "train") == IndexFilePath(sourceDir, others, "train")
    ensures IndexFilePath(sourceDir, classNames, "val") == IndexFilePath(sourceDir, others, "val")
    ensures IndexFilePath(sourceDir, classNames, "train") != IndexFilePath(sourceDir, classNames, "val")
  {
    var train := IndexFilePath(sourceDir, classNames, "train").value;
    var val := IndexFilePath(sourceDir, classNames, "val").value;
    assert |train| == |val| + 2;
  }

  /** The image name is the stripped line up to its first space. */
  lemma ImageNameIsFirstToken(line: string)
    ensures ImageName(line) == TakeUntil(Strip(line), ' ')
  {
    SplitHead(Strip(line), ' ');
  }

  /** What precedes the first separator is a separator-free prefix, followed by a separator or by nothing. */
  lemma {:induction false} TakeUntilShape(s: string, sep: char)
    ensures |TakeUntil(s, sep)| <= |s| && TakeUntil(s, sep) == s[..|TakeUntil(s, sep)|]
    ensures sep !in TakeUntil(s, sep)
    ensures |TakeUntil(s, sep)| == |s| || s[|TakeUntil(s, sep)|] == sep
    decreases |s|
  {
    if s != [] && s[0] != sep {
      TakeUntilShape(s[1..], sep);
    }
  }

  /** The image name holds no space and either is the whole stripped line or is followed by a space there. */
  lemma ImageNameShape(line: string)
    ensures var t, n := Strip(line), ImageName(line);
            ' ' !in n && |n| <= |t| && n == t[..|n|] && (|n| == |t| || t[|n|] == ' ')
  {
    ImageNameIsFirstToken(line);
    TakeUntilShape(Strip(line), ' ');
  }

  /** A VOC index line `<name> <flag>\n` yields `<name>`. */
  lemma EntryName(name: string, flag: string)
    requires name != [] && flag != []
    requires forall k :: 0 <= k < |name| ==> !IsSpace(name[k])
    requires !IsSpace(flag[|flag| - 1])
    ensures ImageName(name + " " + flag + "\n") == name
  {
    var entry := name + " " + flag;
    var line := entry + "\n";
    assert LStrip(line) == line by {
      assert line[0] == name[0];
    }
    assert RStrip(line) == entry by {
      assert line[..|line| - 1] == entry;
      assert entry[|entry| - 1] == flag[|flag| - 1];
    }
    assert Split(entry, ' ') == [name] + Split(flag, ' ') by {
      assert ' ' !in name by {
        assert IsSpace(' ');
      }
      SplitAround(name, flag, ' ');
      SplitWithoutSeparator(name, ' ');
    }
  }
}
