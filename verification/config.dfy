/** The urgency configuration and its line-oriented `key=value` reader
    (src/config.rs). Numbers in the text are read by the platform's
    floating-point parser, which is outside this model: every parsing
    operation takes it as the parameter `parseNum`, which answers `None`
    where the platform parser reports an error. */
module Configuration {

  import opened Results
  import opened Text

  /** The three urgency coefficients the planner reads from the task store. */
  datatype Config = Config(
    dueCoefficient: real,
    ageCoefficient: real,
    ageMax: real
  )

  /** The three recognised settings. */
  datatype Field = AgeCoefficient | AgeMax | DueCoefficient

  /** Why a parse failed. `ExpectedKey` and `ExpectedValue` exist in the
      program but are never produced (see `ConfigProperties.ParseNeverExpects`). */
  datatype ParseError = ExpectedKey | ExpectedValue | CouldNotParse(field: Field)

  /** The floating-point reader the parse delegates to. */
  type NumberParser = string -> Option<real>

  /** The configuration used when the text sets nothing. */
  function New(): (c: Config)
    ensures c.ageCoefficient == 1.0 && c.ageMax == 365.0 && c.dueCoefficient == 1.0
  {
    Config(dueCoefficient := 1.0, ageCoefficient := 1.0, ageMax := 365.0)
  }

  /** `Default` delegates to `New`. */
  function Default(): (c: Config)
    ensures c == New()
  {
    New()
  }

  /** The exact key text of each setting: case-sensitive, no surrounding
      blanks allowed. */
  function Key(f: Field): string
  {
    match f
    case AgeCoefficient => "urgency.age.coefficient"
    case AgeMax => "urgency.age.max"
    case DueCoefficient => "urgency.due.coefficient"
  }

  /** The setting a key names, if any. */
  function FieldOfKey(k: string): (r: Option<Field>)
    ensures r.Some? ==> Key(r.value) == k
    ensures r.None? ==> forall f :: Key(f) != k
  {
    if k == "urgency.age.coefficient" then Some(AgeCoefficient)
    else if k == "urgency.age.max" then Some(AgeMax)
    else if k == "urgency.due.coefficient" then Some(DueCoefficient)
    else None
  }

  function Get(c: Config, f: Field): real
  {
    match f
    case AgeCoefficient => c.ageCoefficient
    case AgeMax => c.ageMax
    case DueCoefficient => c.dueCoefficient
  }

  /** `c` with setting `f` replaced by `x` and every other setting kept. */
  function With(c: Config, f: Field, x: real): (d: Config)
    ensures Get(d, f) == x
    ensures forall g :: g != f ==> Get(d, g) == Get(c, g)
  {
    match f
    case AgeCoefficient => c.(ageCoefficient := x)
    case AgeMax => c.(ageMax := x)
    case DueCoefficient => c.(dueCoefficient := x)
  }

  /** Stores the parsed value of setting `f`, failing with that setting's
      error when the value text is not a number. */
  function Store(out: Config, f: Field, parsed: Option<real>): (r: Result<Config, ParseError>)
    ensures r.Err? <==> parsed.None?
    ensures r.Err? ==> r.error == CouldNotParse(f)
    ensures r.Ok? ==> r.value == With(out, f, parsed.value)
  {
    match parsed
    case None => Err(CouldNotParse(f))
    case Some(x) => Ok(With(out, f, x))
  }

  /** One iteration of the reader's loop: lines without `=` are skipped;
      otherwise the line is cut at its first `=`, and a recognised key
      stores its value while any other key leaves the configuration alone. */
  function ParseLine(out: Config, line: string, parseNum: NumberParser): (r: Result<Config, ParseError>)
    ensures '=' !in line ==> r == Ok(out)
    ensures r.Err? ==> r.error.CouldNotParse?
  {
    if '=' !in line then Ok(out)
    else
      var kv := SplitOnce(line, '=');
      match Nth(kv, 0)
      case None => Err(ExpectedKey)
      case Some(k) =>
        match Nth(kv, 1)
        case None => Err(ExpectedValue)
        case Some(v) =>
          match FieldOfKey(k)
          case Some(f) => Store(out, f, parseNum(v))
          case None => Ok(out)
  }

  /** The reader's loop as a fold over the lines, stopping at the first
      failing line. */
  function ParseLines(out: Config, lines: seq<string>, parseNum: NumberParser): (r: Result<Config, ParseError>)
    ensures r.Err? ==> r.error.CouldNotParse?
    decreases |lines|
  {
    if |lines| == 0 then Ok(out)
    else
      match ParseLine(out, lines[0], parseNum)
      case Err(e) => Err(e)
      case Ok(next) => ParseLines(next, lines[1..], parseNum)
  }

  /** The lines of a configuration text: the pieces between `\n`s. */
  function Lines(input: string): seq<string>
  {
    Split(input, '\n')
  }

  /** `Config::parse`: start from the defaults and apply every line. */
  function Parse(input: string, parseNum: NumberParser): (r: Result<Config, ParseError>)
    ensures r.Err? ==> r.error.CouldNotParse?
  {
    ParseLines(Default(), Lines(input), parseNum)
  }

  /** The same reader written as the program writes it: a loop over the
      lines that updates one configuration in place and returns at the
      first line whose value does not parse. */
  method ParseLoop(input: string, parseNum: NumberParser) returns (r: Result<Config, ParseError>)
    ensures r == Parse(input, parseNum)
  {
    var lines := Lines(input);
    var out := Default();
    var i := 0;
    while i < |lines|
      invariant 0 <= i <= |lines|
      invariant ParseLines(out, lines[i..], parseNum) == Parse(input, parseNum)
    {
      assert lines[i..][1..] == lines[i + 1..];
      var step := ParseLine(out, lines[i], parseNum);
      if step.Err? {
        return Err(step.error);
      }
      out := step.value;
      i := i + 1;
    }
    return Ok(out);
  }
}
