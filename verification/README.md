# task-sched: configuration reader and free-time blocking

This project models, in Dafny, the two parts of the task-sched day planner
that hold real logic.

- **The urgency configuration** (`src/config.rs`). A `Config` holds three
  coefficients: due coefficient, age coefficient and age max. They default
  to 1.0, 1.0 and 365.0. `Config::parse` reads a `key=value` text:
  - it splits the text at every `\n`;
  - it skips lines without `=`;
  - it cuts every other line at its first `=`;
  - it stores the value of the three recognised keys `urgency.age.coefficient`,
    `urgency.age.max` and `urgency.due.coefficient`, and ignores any other key;
  - it fails as a whole when a recognised key's value is not a number.
- **Free time** (`src/free_time.rs`). A `FreeTime` is either `Blocked` or
  `FromTo(start, end)`. `block(start, end)` removes a busy range from it.
  Only the non-overlapping cases are implemented. The overlapping case is a
  `todo!()` that stops the program.

Modules:

- `Results` (`results.dfy`) holds `Option` and `Result`.
- `Text` (`text.dfy`) models `str::split` and `str::splitn(2, _)`.
  `Split` is proved to be the inverse of `Join`, in both directions.
- `Configuration` (`config.dfy`) holds the data model and the reader. The
  reader is written twice: as a fold over the lines (`Parse`), and as the
  program's loop with early return (`ParseLoop`). The two are proved equal.
- `ConfigProperties` (`config_properties.dfy`) gives an independent
  description of what a line means. A line *assigns* a setting when it
  starts with that setting's key directly followed by `=`; its value is the
  rest of the line. The reader is proved to agree with that description:
  it fails exactly on a bad line, the last assignment wins, and so on.
- `FreeTimes` (`free_time.rs` → `free_time.dfy`) models `FreeTime`, `new`
  and `block`.

Modelling choices:

- The floating-point reader (`str::parse::<f64>`) is a parameter
  `parseNum: string -> Option<real>`. `None` stands for a parse error. Every
  result holds for every such reader. The unit tests become lemmas that
  assume only that the reader reads `"2.5"` as 2.5 and `"123.4"` as 123.4.
- The error reports become the `ParseError` datatype. `ExpectedKey` and
  `ExpectedValue` stand for the two `ok_or` errors, which are never
  produced. `CouldNotParse(field)` stands for the three
  "could not parse …" errors.
- Instants are `int`. The time zone type parameter does not affect any
  comparison.
- The `todo!()` branch is the outcome `Unimplemented`. No splitting rule is
  invented for it.

## Model

| member | source | states |
|---|---|---|
| Configuration.New | src/config.rs:11-17 | the defaults are age coefficient 1.0, age max 365.0 and due coefficient 1.0 |
| Configuration.Default | src/config.rs:52-56 | `Default` is exactly `new()` |
| Configuration.FieldOfKey | src/config.rs:31-44 | a key selects a setting only when it equals that setting's key text exactly; any other key selects none |
| Configuration.Store | src/config.rs:32-42 | a recognised key fails with its own setting's error exactly when the value is not a number; otherwise only that setting is replaced |
| Configuration.ParseLine | src/config.rs:23-45 | a line without `=` leaves the configuration unchanged; a failing line only ever fails with a "could not parse" error, never "Expected a key" or "Expected a value" |
| Configuration.ParseLines | src/config.rs:22-46 | the fold over the lines only ever fails with a "could not parse" error |
| Configuration.Parse | src/config.rs:19-49 | the whole parse only ever fails with a "could not parse" error |
| Configuration.ParseLoop | src/config.rs:19-49 | the in-place loop with early return computes the same result as the fold |
| Text.Split | src/config.rs:22 | splitting at `\n` yields at least one piece, no piece contains `\n`, and joining the pieces gives the input back |
| Text.SplitJoin | src/config.rs:22 | splitting the join of separator-free pieces gives back exactly those pieces, so the split is unique |
| Text.SplitOnce | src/config.rs:27-29 | `splitn(2, '=')` yields a second piece exactly when the line holds `=`; the first piece holds no `=`; the pieces joined with `=` give the line back |
| ConfigProperties.AssignsIffKeyBeforeFirstSeparator | src/config.rs:27-31 | the key is the text before the first `=` and the value is everything after it, further `=`s included |
| ConfigProperties.ParseLineMeaning | src/config.rs:23-45 | a line assigning a setting a number sets exactly that setting; a non-numeric value fails with that setting's error; every other line (no `=`, unknown, padded or differently cased key) changes nothing |
| ConfigProperties.ParseLineFailsIffBad | src/config.rs:31-44 | a line fails if and only if it assigns a recognised setting a non-numeric value; a successful line leaves every setting it does not assign untouched |
| ConfigProperties.ParseLineStep | src/config.rs:31-44 | after a successful line, the setting it assigns holds the parsed number and every other setting is unchanged |
| ConfigProperties.ParseLinesFailure | src/config.rs:22-46 | the fold fails if and only if there is a bad line, and then with the error of the first bad line's setting, whatever later lines hold |
| ConfigProperties.ParseLinesSettings | src/config.rs:22-46 | after a successful fold each setting holds the value of the last line assigning it, or its starting value when no line does |
| ConfigProperties.ParseFailsIffBadLine | src/config.rs:34-41 | a non-numeric value for a recognised key anywhere in the text makes the whole parse fail, and failure happens only then |
| ConfigProperties.ParseKeepsLastAssignment | src/config.rs:20-48 | on success the last assignment of each setting wins, and unassigned settings keep their defaults |
| ConfigProperties.ParseWithoutAssignmentsIsDefault | src/config.rs:20-48 | a text in which no line assigns a recognised setting parses to exactly the defaults |
| ConfigProperties.ParseEmpty | src/config.rs:63-65 | the empty text parses to the defaults 1.0, 365.0 and 1.0 |
| ConfigProperties.ParseSingleSetting | src/config.rs:27-42 | a one-line `key=value` text hands the whole value text to the number reader and sets that setting alone, or fails with its error |
| ConfigProperties.ParseAgeCoefficientExample | src/config.rs:68-72 | `urgency.age.coefficient=2.5` sets the age coefficient to 2.5 and keeps the other defaults |
| ConfigProperties.ParseAgeMaxExample | src/config.rs:75-79 | `urgency.age.max=123.4` sets the age max to 123.4 and keeps the other defaults |
| ConfigProperties.ParseDueCoefficientExample | src/config.rs:82-86 | `urgency.due.coefficient=2.5` sets the due coefficient to 2.5 and keeps the other defaults |
| FreeTimes.New | src/free_time.rs:10-12 | `new` keeps both instants in the given order and does not check that start precedes end |
| FreeTimes.Block | src/free_time.rs:14-29 | an empty or reversed busy range returns the input unchanged; `Blocked` stays `Blocked`; free time entirely outside the range is returned unchanged; whenever `block` returns, it returns its input |
| FreeTimes.BlockUnimplementedIffShared | src/free_time.rs:22-25 | for ordered free time and a non-empty range, the unimplemented case is reached exactly when the two share an instant, counting the free time's end as inside it and the range's end as outside it |
| FreeTimes.BlockTouchingEnds | src/free_time.rs:22-25 | free time ending exactly at the busy range's start is not treated as disjoint; free time starting exactly at its end is |

## Left out

- The scheduler (`src/scheduler.rs`) is only an empty method holding a plan
  in a comment. It has no behaviour to model. The commitment timeline,
  interval merge, urgency model, task pool and scheduling loop described for
  this system do not exist in this code. `src/main.rs` calls a
  `Scheduler::new` with five arguments, a `simplify()` and a `.commitments`
  field, but none of these exist in the code either.
- `src/main.rs` is command-line parsing, the async runtime, printing and
  commented-out experiments.
- `src/caldotcom.rs` is an HTTP client with JSON decoding. It is network I/O.
- `src/taskwarrior.rs` spawns an external process and decodes its output.
- `src/dates.rs` delegates to date and duration parsing libraries whose
  behaviour cannot be seen.
- `src/task.rs` is a plain data record with no behaviour.
- Floating-point parsing and rounding: `str::parse::<f64>` is the parameter
  `parseNum`. Values are `real`, and no IEEE behaviour is modelled. The unit
  tests hold only for readers that agree with Rust on the literals they use.
- The wording of the error messages and the error-context chain are reduced
  to the `ParseError` variants.
- `block`'s overlapping case is the program's `todo!()`. It is modelled as
  the outcome `Unimplemented`, not as a result.
- `Clone`, `Debug` and `PartialEq` derivations are Dafny's built-in value
  equality.
