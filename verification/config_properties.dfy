/** What the configuration reader promises, stated without reference to how
    it splits lines: a line "assigns" a setting when it starts with that
    setting's key immediately followed by `=`, and the value is everything
    after that `=`. */
module ConfigProperties {

  import opened Results
  import opened Text
  import opened Configuration

  /** `line` starts with `Key(f)` followed directly by `=`. */
  predicate Assigns(line: string, f: Field)
  {
    |Key(f)| < |line| && line[..|Key(f)|] == Key(f) && line[|Key(f)|] == '='
  }

  /** The value text of an assigning line: everything after the key's `=`,
      further `=`s included. */
  function ValueText(line: string, f: Field): string
    requires Assigns(line, f)
  {
    line[|Key(f)| + 1..]
  }

  /** A line that assigns a setting a value the number parser rejects. */
  ghost predicate BadLine(line: string, parseNum: NumberParser)
  {
    exists f :: Assigns(line, f) && parseNum(ValueText(line, f)).None?
  }

  /** Line `i` is bad and no line before it is. */
  ghost predicate FirstBadLine(lines: seq<string>, parseNum: NumberParser, i: int)
  {
    0 <= i < |lines| && BadLine(lines[i], parseNum)
    && forall j :: 0 <= j < i ==> !BadLine(lines[j], parseNum)
  }

  /** Line `i` assigns `f` and no later line does. */
  ghost predicate LastAssignment(lines: seq<string>, f: Field, i: int)
  {
    0 <= i < |lines| && Assigns(lines[i], f)
    && forall j :: i < j < |lines| ==> !Assigns(lines[j], f)
  }

  lemma KeysHoldNoSeparator(f: Field)
    ensures '=' !in Key(f) && '\n' !in Key(f)
  {
    match f
    case AgeCoefficient =>
    case AgeMax =>
    case DueCoefficient =>
  }

  /** A line with an `=` assigns exactly the setting whose key is the text
      before its first `=`, and its value text is the rest. */
  lemma {:induction false} AssignsIffKeyBeforeFirstSeparator(line: string, f: Field)
    requires '=' in line
    ensures Assigns(line, f) <==> SplitOnce(line, '=')[0] == Key(f)
    ensures Assigns(line, f) ==> ValueText(line, f) == SplitOnce(line, '=')[1]
  {
    var kv := SplitOnce(line, '=');
    assert line == kv[0] + ['='] + kv[1];
    KeysHoldNoSeparator(f);
    if Assigns(line, f) {
      var rest := line[|Key(f)| + 1..];
      assert line == Key(f) + ['='] + rest;
      PrefixBeforeSeparatorUnique(kv[0], kv[1], Key(f), rest, '=');
    }
    if kv[0] == Key(f) {
      assert line[..|Key(f)|] == Key(f);
    }
  }

  /** What one line does to the configuration: a recognised key with a
      numeric value sets exactly that setting, a recognised key with a
      non-numeric value fails with that setting's error, and every other
      line (no `=`, unknown key, padded or differently cased key) changes
      nothing. */
  lemma ParseLineMeaning(out: Config, line: string, parseNum: NumberParser)
    ensures forall f :: Assigns(line, f) && parseNum(ValueText(line, f)).None? ==>
      ParseLine(out, line, parseNum) == Err(CouldNotParse(f))
    ensures forall f :: Assigns(line, f) && parseNum(ValueText(line, f)).Some? ==>
      ParseLine(out, line, parseNum) == Ok(With(out, f, parseNum(ValueText(line, f)).value))
    ensures (forall f :: !Assigns(line, f)) ==> ParseLine(out, line, parseNum) == Ok(out)
  {
    if '=' in line {
      forall f ensures Assigns(line, f) <==> SplitOnce(line, '=')[0] == Key(f)
        ensures Assigns(line, f) ==> ValueText(line, f) == SplitOnce(line, '=')[1]
      {
        AssignsIffKeyBeforeFirstSeparator(line, f);
      }
    }
  }

  /** A line fails exactly when it is bad; a line that does not fail
      changes at most the setting it assigns. */
  lemma ParseLineFailsIffBad(out: Config, line: string, parseNum: NumberParser)
    ensures ParseLine(out, line, parseNum).Err? <==> BadLine(line, parseNum)
    ensures forall f :: BadLine(line, parseNum) && Assigns(line, f) ==>
      ParseLine(out, line, parseNum) == Err(CouldNotParse(f))
    ensures forall f :: ParseLine(out, line, parseNum).Ok? && !Assigns(line, f) ==>
      Get(ParseLine(out, line, parseNum).value, f) == Get(out, f)
  {
    ParseLineMeaning(out, line, parseNum);
    forall f | BadLine(line, parseNum) && Assigns(line, f)
      ensures ParseLine(out, line, parseNum) == Err(CouldNotParse(f))
    {
      var g :| Assigns(line, g) && parseNum(ValueText(line, g)).None?;
      SameLineSameField(line, f, g);
    }
  }

  /** No line assigns two different settings. */
  lemma SameLineSameField(line: string, f: Field, g: Field)
    requires Assigns(line, f) && Assigns(line, g)
    ensures f == g
  {
    KeysHoldNoSeparator(f);
    KeysHoldNoSeparator(g);
    assert line == Key(f) + ['='] + ValueText(line, f);
    assert line == Key(g) + ['='] + ValueText(line, g);
    PrefixBeforeSeparatorUnique(Key(f), ValueText(line, f), Key(g), ValueText(line, g), '=');
    match f
    case AgeCoefficient =>
    case AgeMax =>
    case DueCoefficient =>
  }

  /** When the first line is fine, the first bad line of the rest is the
      first bad line of the whole, one position later. */
  lemma FirstBadLineShift(lines: seq<string>, parseNum: NumberParser, i: int)
    requires |lines| > 0 && !BadLine(lines[0], parseNum)
    ensures FirstBadLine(lines, parseNum, i) <==> i >= 1 && FirstBadLine(lines[1..], parseNum, i - 1)
  {
    if i >= 1 && FirstBadLine(lines[1..], parseNum, i - 1) {
      forall j | 0 <= j < i ensures !BadLine(lines[j], parseNum) {
        if j > 0 {
          assert lines[j] == lines[1..][j - 1];
        }
      }
    }
    if FirstBadLine(lines, parseNum, i) {
      forall j | 0 <= j < i - 1 ensures !BadLine(lines[1..][j], parseNum) {
        assert lines[1..][j] == lines[j + 1];
      }
    }
  }

  /** The fold fails exactly when some line is bad, and then with the error
      of the setting the first bad line assigns, whatever the later lines
      hold. */
  lemma {:induction false} ParseLinesFailure(out: Config, lines: seq<string>, parseNum: NumberParser)
    ensures ParseLines(out, lines, parseNum).Err? <==> exists i :: FirstBadLine(lines, parseNum, i)
    ensures forall i, f :: FirstBadLine(lines, parseNum, i) && Assigns(lines[i], f) ==>
      ParseLines(out, lines, parseNum) == Err(CouldNotParse(f))
    decreases |lines|
  {
    if |lines| > 0 {
      ParseLineFailsIffBad(out, lines[0], parseNum);
      var step := ParseLine(out, lines[0], parseNum);
      if step.Err? {
        assert FirstBadLine(lines, parseNum, 0);
        forall i, f | FirstBadLine(lines, parseNum, i) && Assigns(lines[i], f)
          ensures ParseLines(out, lines, parseNum) == Err(CouldNotParse(f))
        {
          assert i == 0;
        }
      } else {
        ParseLinesFailure(step.value, lines[1..], parseNum);
        forall i ensures FirstBadLine(lines, parseNum, i) <==> i >= 1 && FirstBadLine(lines[1..], parseNum, i - 1) {
          FirstBadLineShift(lines, parseNum, i);
        }
        if j :| FirstBadLine(lines[1..], parseNum, j) {
          assert FirstBadLine(lines, parseNum, j + 1);
        }
        forall i, f | FirstBadLine(lines, parseNum, i) && Assigns(lines[i], f)
          ensures ParseLines(out, lines, parseNum) == Err(CouldNotParse(f))
        {
          assert lines[1..][i - 1] == lines[i];
        }
      }
    }
  }

  /** Every sequence with a bad line has a first bad line. */
  lemma {:induction false} FirstBadLineExists(lines: seq<string>, parseNum: NumberParser, k: int)
    requires 0 <= k < |lines| && BadLine(lines[k], parseNum)
    ensures exists i :: FirstBadLine(lines, parseNum, i)
    decreases k
  {
    if !BadLine(lines[0], parseNum) {
      assert lines[1..][k - 1] == lines[k];
      FirstBadLineExists(lines[1..], parseNum, k - 1);
      var j :| FirstBadLine(lines[1..], parseNum, j);
      FirstBadLineShift(lines, parseNum, j + 1);
    } else {
      assert FirstBadLine(lines, parseNum, 0);
    }
  }

  /** After a successful fold, each setting holds the value of the last line
      that assigns it, or its starting value when no line does. */
  lemma {:induction false} ParseLinesSettings(out: Config, lines: seq<string>, parseNum: NumberParser)
    requires ParseLines(out, lines, parseNum).Ok?
    ensures forall f, i :: LastAssignment(lines, f, i) ==>
      parseNum(ValueText(lines[i], f)) == Some(Get(ParseLines(out, lines, parseNum).value, f))
    ensures forall f :: (forall i :: 0 <= i < |lines| ==> !Assigns(lines[i], f)) ==>
      Get(ParseLines(out, lines, parseNum).value, f) == Get(out, f)
    decreases |lines|
  {
    if |lines| > 0 {
      var c := ParseLines(out, lines, parseNum).value;
      var step := ParseLine(out, lines[0], parseNum);
      assert step.Ok?;
      var next := step.value;
      var rest := lines[1..];
      assert ParseLines(next, rest, parseNum) == Ok(c);
      ParseLinesSettings(next, rest, parseNum);
      forall f, i | LastAssignment(lines, f, i)
        ensures parseNum(ValueText(lines[i], f)) == Some(Get(c, f))
      {
        ParseLineStep(out, lines[0], parseNum, f);
        if i > 0 {
          assert rest[i - 1] == lines[i];
          assert LastAssignment(rest, f, i - 1);
        } else {
          assert forall j :: 0 <= j < |rest| ==> !Assigns(rest[j], f) by {
            forall j | 0 <= j < |rest| ensures !Assigns(rest[j], f) {
              assert rest[j] == lines[j + 1];
            }
          }
        }
      }
      forall f | forall i :: 0 <= i < |lines| ==> !Assigns(lines[i], f)
        ensures Get(c, f) == Get(out, f)
      {
        ParseLineStep(out, lines[0], parseNum, f);
        assert forall j :: 0 <= j < |rest| ==> !Assigns(rest[j], f) by {
          forall j | 0 <= j < |rest| ensures !Assigns(rest[j], f) {
            assert rest[j] == lines[j + 1];
          }
        }
      }
    }
  }

  /** One successful line seen from a single setting `f`: if the line
      assigns `f`, its value text is a number and `f` now holds it;
      otherwise `f` keeps its value. */
  lemma ParseLineStep(out: Config, line: string, parseNum: NumberParser, f: Field)
    requires ParseLine(out, line, parseNum).Ok?
    ensures Assigns(line, f) ==> parseNum(ValueText(line, f)).Some?
    ensures Assigns(line, f) && parseNum(ValueText(line, f)).Some? ==>
      Get(ParseLine(out, line, parseNum).value, f) == parseNum(ValueText(line, f)).value
    ensures !Assigns(line, f) ==> Get(ParseLine(out, line, parseNum).value, f) == Get(out, f)
  {
    ParseLineMeaning(out, line, parseNum);
    ParseLineFailsIffBad(out, line, parseNum);
  }

  /** `Config::parse` fails exactly when some line assigns a recognised
      setting a value that is not a number, and then reports the setting of
      the first such line. */
  lemma ParseFailsIffBadLine(input: string, parseNum: NumberParser)
    ensures Parse(input, parseNum).Err? <==>
      exists k :: 0 <= k < |Lines(input)| && BadLine(Lines(input)[k], parseNum)
    ensures forall i, f :: FirstBadLine(Lines(input), parseNum, i) && Assigns(Lines(input)[i], f) ==>
      Parse(input, parseNum) == Err(CouldNotParse(f))
  {
    var lines := Lines(input);
    ParseLinesFailure(Default(), lines, parseNum);
    if k :| 0 <= k < |lines| && BadLine(lines[k], parseNum) {
      FirstBadLineExists(lines, parseNum, k);
    }
  }

  /** On success each setting holds the value of the last line assigning it
      (later lines win), or its default when no line assigns it. */
  lemma ParseKeepsLastAssignment(input: string, parseNum: NumberParser)
    requires Parse(input, parseNum).Ok?
    ensures forall f, i :: LastAssignment(Lines(input), f, i) ==>
      parseNum(ValueText(Lines(input)[i], f)) == Some(Get(Parse(input, parseNum).value, f))
    ensures forall f :: (forall i :: 0 <= i < |Lines(input)| ==> !Assigns(Lines(input)[i], f)) ==>
      Get(Parse(input, parseNum).value, f) == Get(New(), f)
  {
    ParseLinesSettings(Default(), Lines(input), parseNum);
  }

  /** Two configurations that agree on every setting are equal. */
  lemma ConfigExtensionality(c: Config, d: Config)
    requires forall f :: Get(c, f) == Get(d, f)
    ensures c == d
  {
    assert Get(c, AgeCoefficient) == Get(d, AgeCoefficient);
    assert Get(c, AgeMax) == Get(d, AgeMax);
    assert Get(c, DueCoefficient) == Get(d, DueCoefficient);
  }

  /** A text in which no line assigns a recognised setting parses to the
      defaults, whatever else it holds. */
  lemma ParseWithoutAssignmentsIsDefault(input: string, parseNum: NumberParser)
    requires forall i, f :: 0 <= i < |Lines(input)| ==> !Assigns(Lines(input)[i], f)
    ensures Parse(input, parseNum) == Ok(New())
  {
    ParseFailsIffBadLine(input, parseNum);
    ParseKeepsLastAssignment(input, parseNum);
    ConfigExtensionality(Parse(input, parseNum).value, New());
  }

  /** The empty text parses to exactly the defaults 1.0, 365.0 and 1.0. */
  lemma ParseEmpty(parseNum: NumberParser)
    ensures Parse("", parseNum).Ok?
    ensures Parse("", parseNum).value.ageCoefficient == 1.0
    ensures Parse("", parseNum).value.ageMax == 365.0
    ensures Parse("", parseNum).value.dueCoefficient == 1.0
  {
    assert Lines("") == [""];
    ParseWithoutAssignmentsIsDefault("", parseNum);
  }

  /** A one-line text `key=value` with a recognised key hands the whole
      value text (further `=`s included) to the number parser, and stores
      the number in that setting alone or fails with that setting's error. */
  lemma ParseSingleSetting(f: Field, value: string, parseNum: NumberParser)
    requires '\n' !in value
    ensures parseNum(value).None? ==> Parse(Key(f) + "=" + value, parseNum) == Err(CouldNotParse(f))
    ensures parseNum(value).Some? ==>
      Parse(Key(f) + "=" + value, parseNum) == Ok(With(New(), f, parseNum(value).value))
  {
    var line := Key(f) + "=" + value;
    KeysHoldNoSeparator(f);
    assert '\n' !in line;
    assert Lines(line) == [line];
    assert line[..|Key(f)|] == Key(f);
    assert ValueText(line, f) == value;
    ParseLineMeaning(Default(), line, parseNum);
    var r := ParseLine(Default(), line, parseNum);
    assert Parse(line, parseNum) == ParseLines(Default(), [line], parseNum);
    if r.Ok? {
      assert ParseLines(r.value, [line][1..], parseNum) == Ok(r.value);
    }
  }

  /** The program's own examples: `urgency.age.coefficient=2.5`,
      `urgency.age.max=123.4` and `urgency.due.coefficient=2.5` each set the
      named setting to the number and keep the other defaults, given a
      number parser that reads those literals as those numbers. */
  lemma ParseAgeCoefficientExample(parseNum: NumberParser)
    requires parseNum("2.5") == Some(2.5)
    ensures Parse("urgency.age.coefficient=2.5", parseNum) == Ok(New().(ageCoefficient := 2.5))
  {
    assert "urgency.age.coefficient=2.5" == Key(AgeCoefficient) + "=" + "2.5";
    ParseSingleSetting(AgeCoefficient, "2.5", parseNum);
  }

  lemma ParseAgeMaxExample(parseNum: NumberParser)
    requires parseNum("123.4") == Some(123.4)
    ensures Parse("urgency.age.max=123.4", parseNum) == Ok(New().(ageMax := 123.4))
  {
    assert "urgency.age.max=123.4" == Key(AgeMax) + "=" + "123.4";
    ParseSingleSetting(AgeMax, "123.4", parseNum);
  }

  lemma ParseDueCoefficientExample(parseNum: NumberParser)
    requires parseNum("2.5") == Some(2.5)
    ensures Parse("urgency.due.coefficient=2.5", parseNum) == Ok(New().(dueCoefficient := 2.5))
  {
    assert "urgency.due.coefficient=2.5" == Key(DueCoefficient) + "=" + "2.5";
    ParseSingleSetting(DueCoefficient, "2.5", parseNum);
  }
}
