/**
 * The `pascal_label_map.pbtxt` loop of `__main__`: the file is read line by line, brace
 * lines are skipped, an `id:` line sets the current id, and a `name: '...'` line appends
 * the quoted name to `class_names` and maps it to the current id in `classes_dict`.
 */
module LabelMap {
  import opened Wrappers
  import opened PyStr

  /**
   * The value the loop's variable `id` holds. Until the first `id:` line it is still
   * Python's built-in function `id`, which a name line then stores in the dictionary.
   */
  datatype IdValue = BuiltinId | Id(value: int)

  /** `class_names` (file order, duplicates kept) and `classes_dict`. */
  datatype LabelMap = LabelMap(classNames: seq<string>, classesDict: map<string, IdValue>)

  /** The loop's variables after some prefix of the file. */
  datatype ParserState = ParserState(id: IdValue, classNames: seq<string>, classesDict: map<string, IdValue>)

  /**
   * `IdNotInteger`: `int(...)` raised `ValueError` on an id line.
   * `NameNotQuoted`: `l.split("'")[-2]` raised `IndexError` on a name line without a quote.
   */
  datatype LabelMapError = IdNotInteger(line: string) | NameNotQuoted(line: string)

  /** Which branch of the loop body a line takes; the tests are made on the stripped line, in this order. */
  datatype LineKind = BraceLine | IdLine | NameLine | OtherLine

  function Classify(line: string): LineKind
  {
    var l := Strip(line);
    if '{' in l || '}' in l then BraceLine
    else if Contains(l, "id") then IdLine
    else if Contains(l, "name") then NameLine
    else OtherLine
  }

  /** `int(l.split(':')[-1])`: the integer after the last colon, if it is one. */
  function IdOf(line: string): Option<int>
  {
    var parts := Split(Strip(line), ':');
    ParseInt(parts[|parts| - 1])
  }

  /**
   * `l.split("'")[-2]`: the piece before the last quote, which is the text between the last
   * two quotes when there are two; `None` when there is no quote.
   */
  function QuotedName(line: string): Option<string>
  {
    var parts := Split(Strip(line), '\'');
    if |parts| < 2 then None else Some(parts[|parts| - 2])
  }

  /** There is a quoted name exactly when the line holds a quote, and the name holds none. */
  lemma QuotedNameFound(line: string)
    ensures QuotedName(line).Some? <==> '\'' in Strip(line)
    ensures QuotedName(line).Some? ==> '\'' !in QuotedName(line).value
  {
    var l := Strip(line);
    JoinSplit(l, '\'');
    var parts := Split(l, '\'');
    if '\'' !in l {
      SplitWithoutSeparator(l, '\'');
    } else if |parts| >= 2 {
      var i :| 0 <= i < |l| && l[i] == '\'';
    }
  }

  /** A line on which the loop body raises. */
  predicate LineFails(line: string) {
    || (Classify(line) == IdLine && IdOf(line).None?)
    || (Classify(line) == NameLine && QuotedName(line).None?)
  }

  /** The exception a failing line raises. */
  function LineError(line: string): LabelMapError
    requires LineFails(line)
  {
    if Classify(line) == IdLine then IdNotInteger(line) else NameNotQuoted(line)
  }

  /** One iteration of the loop body. */
  function Step(st: ParserState, line: string): Result<ParserState, LabelMapError>
  {
    match Classify(line)
    case BraceLine => Ok(st)
    case OtherLine => Ok(st)
    case IdLine =>
      (match IdOf(line)
       case None => Err(IdNotInteger(line))
       case Some(n) => Ok(st.(id := Id(n))))
    case NameLine =>
      (match QuotedName(line)
       case None => Err(NameNotQuoted(line))
       case Some(name) => Ok(ParserState(st.id, st.classNames + [name], st.classesDict[name := st.id])))
  }

  /** The loop over the remaining lines, stopping at the first exception. */
  function ParseFrom(st: ParserState, lines: seq<string>): Result<ParserState, LabelMapError>
    decreases |lines|
  {
    if lines == [] then Ok(st)
    else
      match Step(st, lines[0])
      case Err(e) => Err(e)
      case Ok(next) => ParseFrom(next, lines[1..])
  }

  /** `id` unbound by the program (still the built-in), both collections empty. */
  const Initial := ParserState(BuiltinId, [], map[])

  /** The label map read from the file's lines. */
  function ParseLabelMap(lines: seq<string>): Result<LabelMap, LabelMapError>
  {
    match ParseFrom(Initial, lines)
    case Err(e) => Err(e)
    case Ok(st) => Ok(LabelMap(st.classNames, st.classesDict))
  }

  /** The loop as the program runs it, with `id`, `class_names` and `classes_dict` updated in place. */
  method LoadLabelMap(lines: seq<string>) returns (r: Result<LabelMap, LabelMapError>)
    ensures r == ParseLabelMap(lines)
  {
    var id := BuiltinId;
    var classNames: seq<string> := [];
    var classesDict: map<string, IdValue> := map[];
    var i := 0;
    while i < |lines|
      invariant 0 <= i <= |lines|
      invariant ParseFrom(Initial, lines[..i]) == Ok(ParserState(id, classNames, classesDict))
    {
      ghost var st := ParserState(id, classNames, classesDict);
      ParseFromSnoc(lines, i, st);
      var l := Strip(lines[i]);
      if '{' in l || '}' in l {
        StepSkips(st, lines[i]);
      } else if Contains(l, "id") {
        var parts := Split(l, ':');
        var n := ParseInt(parts[|parts| - 1]);
        StepReadsId(st, lines[i]);
        if n.None? {
          ParseFromStops(lines, i, IdNotInteger(lines[i]));
          return Err(IdNotInteger(lines[i]));
        }
        id := Id(n.value);
      } else if Contains(l, "name") {
        var parts := Split(l, '\'');
        StepReadsName(st, lines[i]);
        if |parts| < 2 {
          ParseFromStops(lines, i, NameNotQuoted(lines[i]));
          return Err(NameNotQuoted(lines[i]));
        }
        var className := parts[|parts| - 2];
        classNames := classNames + [className];
        classesDict := classesDict[className := id];
      } else {
        StepSkips(st, lines[i]);
      }
      i := i + 1;
    }
    assert lines[..i] == lines;
    return Ok(LabelMap(classNames, classesDict));
  }

  /** A brace line, or one holding neither `id` nor `name`, leaves the state alone. */
  lemma StepSkips(st: ParserState, line: string)
    requires var l := Strip(line); '{' in l || '}' in l || (!Contains(l, "id") && !Contains(l, "name"))
    ensures Step(st, line) == Ok(st)
  {
  }

  /** An id line sets `id` to the integer after its last colon, or raises. */
  lemma StepReadsId(st: ParserState, line: string)
    requires var l := Strip(line); '{' !in l && '}' !in l && Contains(l, "id")
    ensures var parts := Split(Strip(line), ':');
            var n := ParseInt(parts[|parts| - 1]);
            Step(st, line) == if n.None? then Err(IdNotInteger(line)) else Ok(st.(id := Id(n.value)))
  {
  }

  /** A name line appends and stores the name between its last two quotes, or raises. */
  lemma StepReadsName(st: ParserState, line: string)
    requires var l := Strip(line); '{' !in l && '}' !in l && !Contains(l, "id") && Contains(l, "name")
    ensures var parts := Split(Strip(line), '\'');
            Step(st, line) == if |parts| < 2 then Err(NameNotQuoted(line))
                              else Ok(ParserState(st.id, st.classNames + [parts[|parts| - 2]],
                                                  st.classesDict[parts[|parts| - 2] := st.id]))
  {
  }

  /** Folding one more line onto a prefix that parsed. */
  lemma ParseFromSnoc(lines: seq<string>, i: nat, st: ParserState)
    requires i < |lines| && ParseFrom(Initial, lines[..i]) == Ok(st)
    ensures ParseFrom(Initial, lines[..i + 1]) == Step(st, lines[i])
  {
    assert lines[..i + 1] == lines[..i] + [lines[i]];
    ParseFromAppend(Initial, lines[..i], [lines[i]]);
    assert [lines[i]][1..] == [];
  }

  /** An exception on a prefix is the exception of the whole file. */
  lemma ParseFromStops(lines: seq<string>, i: nat, e: LabelMapError)
    requires i < |lines| && ParseFrom(Initial, lines[..i + 1]) == Err(e)
    ensures ParseLabelMap(lines) == Err(e)
  {
    assert lines[..i + 1] + lines[i + 1..] == lines;
    ParseFromAppend(Initial, lines[..i + 1], lines[i + 1..]);
  }

  // ---------------------------------------------------------------------------
  // Independent descriptions of what the loop computes

  /** The quoted names of the name lines, in file order. */
  function DeclaredNames(lines: seq<string>): seq<string>
    decreases |lines|
  {
    if lines == [] then []
    else
      var here := if Classify(lines[0]) == NameLine && QuotedName(lines[0]).Some?
                  then [QuotedName(lines[0]).value] else [];
      here + DeclaredNames(lines[1..])
  }

  /** How many lines take the name branch. */
  function NameLineCount(lines: seq<string>): nat
    decreases |lines|
  {
    if lines == [] then 0
    else (if Classify(lines[0]) == NameLine then 1 else 0) + NameLineCount(lines[1..])
  }

  /** The value of the last id line among `lines`; the built-in `id` when there is none. */
  function LastId(lines: seq<string>): IdValue
    decreases |lines|
  {
    if lines == [] then BuiltinId
    else
      var l := lines[|lines| - 1];
      if Classify(l) == IdLine && IdOf(l).Some? then Id(IdOf(l).value)
      else LastId(lines[..|lines| - 1])
  }

  // ---------------------------------------------------------------------------
  // Properties of the loop

  /** Running the loop over `a + b` is running it over `a`, then over `b`. */
  lemma {:induction false} ParseFromAppend(st: ParserState, a: seq<string>, b: seq<string>)
    ensures ParseFrom(st, a + b) == match ParseFrom(st, a)
                                    case Err(e) => Err(e)
                                    case Ok(mid) => ParseFrom(mid, b)
    decreases |a|
  {
    if a == [] {
      assert a + b == b;
    } else {
      assert (a + b)[0] == a[0];
      assert (a + b)[1..] == a[1..] + b;
      match Step(st, a[0])
      case Err(e) =>
      case Ok(next) => ParseFromAppend(next, a[1..], b);
    }
  }

  /**
   * A line whose stripped text holds `{` or `}` changes nothing, even when it also
   * holds `id` or `name`: the file parses as if the line were absent.
   */
  lemma BraceLineIgnored(before: seq<string>, line: string, after: seq<string>)
    requires '{' in Strip(line) || '}' in Strip(line)
    ensures ParseLabelMap(before + [line] + after) == ParseLabelMap(before + after)
  {
    ParseFromAppend(Initial, before, [line] + after);
    ParseFromAppend(Initial, before, after);
    assert before + [line] + after == before + ([line] + after);
    match ParseFrom(Initial, before)
    case Err(e) =>
    case Ok(mid) =>
      assert ([line] + after)[1..] == after;
  }

  /**
   * The id test comes first: a line holding both `id` and `name` (for instance a quoted
   * class name containing "id") takes the id branch, so it never adds a class name.
   */
  lemma IdTestedBeforeName(st: ParserState, line: string)
    requires '{' !in Strip(line) && '}' !in Strip(line)
    requires Contains(Strip(line), "id") && Contains(Strip(line), "name")
    ensures Classify(line) == IdLine
    ensures Step(st, line).Ok? ==> Step(st, line).value.classNames == st.classNames
    ensures Step(st, line).Ok? ==> Step(st, line).value.classesDict == st.classesDict
  {
  }

  /** The loop raises exactly when some line raises, and then the first such line's exception. */
  lemma {:induction false} ParseFromFails(st: ParserState, lines: seq<string>)
    ensures ParseFrom(st, lines).Ok? <==> forall k :: 0 <= k < |lines| ==> !LineFails(lines[k])
    ensures ParseFrom(st, lines).Err? ==>
              exists k :: 0 <= k < |lines| && LineFails(lines[k]) && ParseFrom(st, lines).error == LineError(lines[k])
                          && forall j :: 0 <= j < k ==> !LineFails(lines[j])
    decreases |lines|
  {
    if lines != [] {
      match Step(st, lines[0])
      case Err(e) =>
        assert LineFails(lines[0]);
      case Ok(next) =>
        assert !LineFails(lines[0]);
        ParseFromFails(next, lines[1..]);
        forall k | 0 < k < |lines| ensures lines[k] == lines[1..][k - 1] { }
        if ParseFrom(next, lines[1..]).Err? {
          var k :| 0 <= k < |lines[1..]| && LineFails(lines[1..][k]) && ParseFrom(next, lines[1..]).error == LineError(lines[1..][k])
                   && forall j :: 0 <= j < k ==> !LineFails(lines[1..][j]);
          assert forall j :: 0 <= j < k + 1 ==> !LineFails(lines[j]) by {
            forall j | 0 < j < k + 1 ensures !LineFails(lines[j]) { assert lines[j] == lines[1..][j - 1]; }
          }
        }
    }
  }

  /** `ParseLabelMap` fails exactly when some line raises, with the first failing line's error. */
  lemma LabelMapFails(lines: seq<string>)
    ensures ParseLabelMap(lines).Ok? <==> forall k :: 0 <= k < |lines| ==> !LineFails(lines[k])
    ensures ParseLabelMap(lines).Err? ==>
              exists k :: 0 <= k < |lines| && LineFails(lines[k]) && ParseLabelMap(lines).error == LineError(lines[k])
                          && forall j :: 0 <= j < k ==> !LineFails(lines[j])
  {
    ParseFromFails(Initial, lines);
  }

  /** What a successful run adds: the declared names at the end of `class_names`, and `id` is the last id. */
  lemma {:induction false} ParseFromNames(st: ParserState, lines: seq<string>)
    requires ParseFrom(st, lines).Ok?
    ensures ParseFrom(st, lines).value.classNames == st.classNames + DeclaredNames(lines)
    ensures |DeclaredNames(lines)| == NameLineCount(lines)
    decreases |lines|
  {
    if lines != [] {
      var next := Step(st, lines[0]).value;
      ParseFromNames(next, lines[1..]);
      var here := if Classify(lines[0]) == NameLine && QuotedName(lines[0]).Some?
                  then [QuotedName(lines[0]).value] else [];
      assert next.classNames == st.classNames + here;
      Regroup(st.classNames, here, DeclaredNames(lines[1..]));
    }
  }

  /**
   * `class_names` lists the quoted names of the name lines in file order, so the
   * `nc` written to `data.yaml` is the number of name lines.
   */
  lemma ClassNamesInFileOrder(lines: seq<string>)
    requires ParseLabelMap(lines).Ok?
    ensures ParseLabelMap(lines).value.classNames == DeclaredNames(lines)
    ensures |ParseLabelMap(lines).value.classNames| == NameLineCount(lines)
  {
    ParseFromNames(Initial, lines);
  }

  /** After a successful run over `lines`, `id` holds the last id read (or the built-in). */
  lemma {:induction false} ParseFromLastId(lines: seq<string>)
    requires ParseFrom(Initial, lines).Ok?
    ensures ParseFrom(Initial, lines).value.id == LastId(lines)
    decreases |lines|
  {
    if lines != [] {
      var front, l := lines[..|lines| - 1], lines[|lines| - 1];
      assert lines == front + [l];
      ParseFromAppend(Initial, front, [l]);
      ParseFromLastId(front);
      assert [l][1..] == [];
    }
  }

  /** A stretch with no name line for `name` leaves that dictionary entry (or its absence) alone. */
  lemma {:induction false} EntryKept(st: ParserState, lines: seq<string>, name: string)
    requires ParseFrom(st, lines).Ok?
    requires forall j :: 0 <= j < |lines| && Classify(lines[j]) == NameLine ==> QuotedName(lines[j]) != Some(name)
    ensures (name in ParseFrom(st, lines).value.classesDict) == (name in st.classesDict)
    ensures name in st.classesDict ==> ParseFrom(st, lines).value.classesDict[name] == st.classesDict[name]
    decreases |lines|
  {
    if lines != [] {
      var next := Step(st, lines[0]).value;
      forall j | 0 <= j < |lines[1..]| && Classify(lines[1..][j]) == NameLine
        ensures QuotedName(lines[1..][j]) != Some(name)
      {
        assert lines[1..][j] == lines[j + 1];
      }
      EntryKept(next, lines[1..], name);
    }
  }

  /**
   * A name maps to the id most recently read before its last name line; a name declared
   * before any id line maps to the built-in `id`.
   */
  lemma NameMapsToPrecedingId(lines: seq<string>, k: nat)
    requires ParseLabelMap(lines).Ok?
    requires k < |lines| && Classify(lines[k]) == NameLine
    requires forall j :: k < j < |lines| && Classify(lines[j]) == NameLine ==> QuotedName(lines[j]) != QuotedName(lines[k])
    ensures QuotedName(lines[k]).Some?
    ensures QuotedName(lines[k]).value in ParseLabelMap(lines).value.classesDict
    ensures ParseLabelMap(lines).value.classesDict[QuotedName(lines[k]).value] == LastId(lines[..k])
  {
    var front, l, back := lines[..k], lines[k], lines[k + 1..];
    assert lines == front + ([l] + back);
    ParseFromAppend(Initial, front, [l] + back);
    LabelMapFails(lines);
    assert !LineFails(lines[k]);
    ParseFromFails(Initial, front);
    assert ParseFrom(Initial, front).Ok? by {
      forall j | 0 <= j < |front| ensures !LineFails(front[j]) { assert front[j] == lines[j]; }
    }
    var mid := ParseFrom(Initial, front).value;
    ParseFromLastId(front);
    var name := QuotedName(l).value;
    var after := Step(mid, l).value;
    assert ([l] + back)[1..] == back;
    assert after.classesDict[name] == LastId(front);
    forall j | 0 <= j < |back| && Classify(back[j]) == NameLine ensures QuotedName(back[j]) != Some(name) {
      assert back[j] == lines[k + 1 + j];
    }
    EntryKept(after, back, name);
  }

  /** Every dictionary key is a class name and every class name is a key. */
  lemma {:induction false} ParseFromKeys(st: ParserState, lines: seq<string>)
    requires ParseFrom(st, lines).Ok?
    requires st.classesDict.Keys == set n | n in st.classNames
    ensures ParseFrom(st, lines).value.classesDict.Keys == set n | n in ParseFrom(st, lines).value.classNames
    decreases |lines|
  {
    if lines != [] {
      var next := Step(st, lines[0]).value;
      assert next.classesDict.Keys == set n | n in next.classNames;
      ParseFromKeys(next, lines[1..]);
    }
  }

  /** `classes_dict` has exactly the names of `class_names` as keys. */
  lemma DictKeysAreClassNames(lines: seq<string>)
    requires ParseLabelMap(lines).Ok?
    ensures ParseLabelMap(lines).value.classesDict.Keys == set n | n in ParseLabelMap(lines).value.classNames
  {
    ParseFromKeys(Initial, lines);
  }

  /** The text after `id:` parses back to the number written there. */
  lemma IdValueRead(n: int)
    ensures ParseInt(" " + IntToDecimal(n)) == Some(n)
  {
    var d := IntToDecimal(n);
    assert d[0] == '-' || IsDigit(d[0]);
    assert IntLStrip(" " + d) == IntLStrip(d) by {
      assert (" " + d)[1..] == d;
    }
    IntStripUnchanged(d);
    ParseIntOfDecimal(n);
  }

  /** The line `id: n` is split at its colon into `id` and ` n`. */
  lemma IdLineSplit(d: string)
    requires ':' !in d
    ensures Split("id: " + d, ':') == ["id", " " + d]
  {
    assert "id: " + d == "id" + [':'] + (" " + d);
    SplitAround("id", " " + d, ':');
    SplitWithoutSeparator("id", ':');
    SplitWithoutSeparator(" " + d, ':');
  }

  /** `id: n`, as the label map writes it, is read as the id `n`. */
  lemma IdLineRead(n: int)
    ensures Classify("id: " + IntToDecimal(n)) == IdLine
    ensures IdOf("id: " + IntToDecimal(n)) == Some(n)
  {
    var d := IntToDecimal(n);
    var line := "id: " + d;
    assert forall i :: 0 <= i < |d| ==> d[i] == '-' || IsDigit(d[i]);
    assert Strip(line) == line by {
      assert line[|line| - 1] == d[|d| - 1];
      StripUnchanged(line);
    }
    assert Contains(line, "id") by {
      assert OccursAt(line, "id", 0);
      OccurrenceContained(line, "id", 0);
    }
    assert '{' !in line && '}' !in line by {
      assert forall i :: 4 <= i < |line| ==> line[i] == d[i - 4];
    }
    IdLineSplit(d);
    IdValueRead(n);
  }

  /**
   * An id line whose number follows one of the separators U+001C..U+001F raises: `strip()`
   * keeps the separator inside the line and `int()` does not skip it.
   */
  lemma SeparatedIdRejected(c: char, d: string)
    requires '\U{1C}' <= c <= '\U{1F}'
    requires ':' !in d && d != [] && !IsSpace(d[|d| - 1])
    ensures IdOf("id:" + [c] + d) == None
  {
    var line := "id:" + [c] + d;
    assert Strip(line) == line by {
      assert line[|line| - 1] == d[|d| - 1];
      StripUnchanged(line);
    }
    assert Split(line, ':') == ["id", [c] + d] by {
      assert line == "id" + [':'] + ([c] + d);
      SplitAround("id", [c] + d, ':');
      SplitWithoutSeparator("id", ':');
      SplitWithoutSeparator([c] + d, ':');
    }
    ParseIntRejectsSeparator(c, d);
  }

  /** Without a brace, such a line takes the id branch and raises there, ending the parse. */
  lemma SeparatedIdLineFails(c: char, d: string)
    requires '\U{1C}' <= c <= '\U{1F}'
    requires ':' !in d && d != [] && !IsSpace(d[|d| - 1]) && '{' !in d && '}' !in d
    ensures Classify("id:" + [c] + d) == IdLine && LineFails("id:" + [c] + d)
  {
    var line := "id:" + [c] + d;
    SeparatedIdRejected(c, d);
    assert line[|line| - 1] == d[|d| - 1];
    StripUnchanged(line);
    assert OccursAt(line, "id", 0);
    OccurrenceContained(line, "id", 0);
    assert forall i :: 4 <= i < |line| ==> line[i] == d[i - 4];
  }

  /** `id:` followed by U+001C and `5` is no id of 5. */
  lemma SeparatedIdExample()
    ensures IdOf("id:\U{1C}5") == None
  {
    assert "id:\U{1C}5" == "id:" + ['\U{1C}'] + "5";
    SeparatedIdRejected('\U{1C}', "5");
  }

  /** The line a label map writes for a class name. */
  function NameEntry(name: string): string {
    "name: '" + name + "'"
  }

  /** A name entry has no white space at its ends. */
  lemma NameEntryStripped(name: string)
    ensures Strip(NameEntry(name)) == NameEntry(name)
  {
    StripUnchanged(NameEntry(name));
  }

  /** A name entry contains `name`, and no brace when the name holds none. */
  lemma NameEntryKeyword(name: string)
    requires '{' !in name && '}' !in name
    ensures Contains(NameEntry(name), "name")
    ensures '{' !in NameEntry(name) && '}' !in NameEntry(name)
  {
    assert OccursAt(NameEntry(name), "name", 0);
    OccurrenceContained(NameEntry(name), "name", 0);
  }

  /** A name entry holds `id` exactly where its name does. */
  lemma NameEntryNoId(name: string)
    requires !Contains(name, "id")
    ensures !Contains(NameEntry(name), "id")
  {
    assert NameEntry(name) == "name: " + ['\''] + (name + ['\''] + []);
    MissingCharNotContained("name: ", "id", 0);
    NotContainsAcross(name, '\'', [], "id");
    NotContainsAcross("name: ", '\'', name + ['\''] + [], "id");
  }

  /** Splitting a name entry at its quotes. */
  lemma NameEntryQuotes(name: string)
    requires '\'' !in name
    ensures Split(NameEntry(name), '\'') == ["name: ", name, []]
  {
    assert NameEntry(name) == "name: " + ['\''] + (name + ['\''] + []);
    SplitAround("name: ", name + ['\''] + [], '\'');
    SplitAround(name, [], '\'');
    SplitWithoutSeparator("name: ", '\'');
    SplitWithoutSeparator(name, '\'');
  }

  /** `name: '<name>'` is read as a name line naming `<name>`, when `<name>` holds no quote, brace or `id`. */
  lemma NameLineRead(name: string)
    requires '\'' !in name && '{' !in name && '}' !in name && !Contains(name, "id")
    ensures Classify(NameEntry(name)) == NameLine
    ensures QuotedName(NameEntry(name)) == Some(name)
  {
    NameEntryStripped(name);
    NameEntryKeyword(name);
    NameEntryNoId(name);
    NameEntryQuotes(name);
  }

  /** A name entry contains `id` when its name does. */
  lemma NameEntryHasId(name: string)
    requires Contains(name, "id")
    ensures Contains(NameEntry(name), "id")
  {
    var line := NameEntry(name);
    ContainsIff(name, "id");
    var i :| OccursAt(name, "id", i);
    assert line[7 + i..7 + i + 2] == name[i..i + 2];
    assert OccursAt(line, "id", 7 + i);
    OccurrenceContained(line, "id", 7 + i);
  }

  /** The text after the colon of a name entry is the quoted name, which `int()` rejects. */
  lemma NameEntryNotInteger(name: string)
    requires ':' !in name
    ensures IdOf(NameEntry(name)) == None
  {
    var quoted := "'" + name + "'";
    assert Split(NameEntry(name), ':') == ["name", " " + quoted] by {
      assert NameEntry(name) == "name" + [':'] + (" " + quoted);
      SplitAround("name", " " + quoted, ':');
      SplitWithoutSeparator("name", ':');
      SplitWithoutSeparator(" " + quoted, ':');
    }
    NameEntryStripped(name);
    assert ParseInt(" " + quoted) == None by {
      assert IntLStrip(" " + quoted) == IntLStrip(quoted) by {
        assert (" " + quoted)[1..] == quoted;
      }
      IntStripUnchanged(quoted);
      assert IntStrip(" " + quoted) == quoted;
      assert quoted[0] == '\'';
      LeadingNonDigit(quoted);
    }
  }

  /**
   * A class whose name holds `id` (such as `kid`) never reaches the name branch: its line
   * is taken for an id line and `int()` of the quoted text raises.
   */
  lemma NameHoldingIdFails(name: string)
    requires Contains(name, "id") && '{' !in name && '}' !in name && ':' !in name
    ensures Classify(NameEntry(name)) == IdLine
    ensures LineFails(NameEntry(name))
  {
    NameEntryStripped(name);
    NameEntryKeyword(name);
    NameEntryHasId(name);
    NameEntryNotInteger(name);
  }
}
