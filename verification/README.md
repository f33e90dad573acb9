# richter core, modelled in Dafny

This project models the four pure pieces of `richter`, a command-line client that
keeps a local calendar of homework data for a user's declared class enrollments:

- **Command-line reader** (`src/command.rs`, `parse_args`). The first raw argument is
  the binary's path. The remaining tokens run through a three-state machine
  (`NextVerb | NextVal(name) | New`) that produces `Verb`, `Arg`, `Opt` and `Flag`
  arguments. It handles long switches (`--name=value`, `--name value`), short clusters
  (`-abc`, `-x=value`) and one leading verb. Module `CommandLine` writes it as a fold
  (`ParseTokens`) of a per-token `Step`. `ParseArgsLoop` is the source's loop, proved to
  compute the same thing.
- **Enrollment declarations** (`src/enroll.rs`). A YAML document maps school names to
  `{id, subdomain}` and lists enrollments as `{school, class}`. Each enrollment is
  resolved against the school table. Module `YamlTree` holds the YAML value tree, and
  module `Enroll` holds the extraction functions, their exact success conditions and
  their distinct error messages. `Enroll.DeclarationsRoundTrip` writes a declarations
  document and proves it reads back as the declared enrollments.
- **Diagnostic messages** (`src/output.rs`). A `Message` is a (process, activity,
  message) triple. It displays as two lines, and the second line is indented to the
  width of the `[process]` tag. The conversions from library errors fix the process
  tags. `Output.ParseDisplay` reads a displayed message back.
- **Query strings** (`src/interface.rs`, `add_query`). This appends `?`, then
  `&key=value` for each parameter. A hash map supplies the parameters in an unspecified
  order, so they are a sequence of pairs here. The order-free facts (length, presence of
  every parameter) are proved for every order.

Modules `Wrappers` (`Option`, `Result`), `Ints` (`i32`, `i64`, `u64`, the `as i32`
cast) and `Strings` (search, padding, decimal rendering) hold what the others share.

Inputs the code gets from its environment are parameters:
- file contents arrive as an I/O `Result`;
- the YAML scanner is a function parameter;
- `DefaultHasher` is a `Hasher` function of the three enrollment fields;
- library error texts are opaque strings.

Three behaviours of the code are modelled as written:
- Enrollment equality (`enroll.rs:220-224`) compares 64-bit hashes, not fields.
  `Enroll.SameIsFieldEquality` therefore proves "equal iff same fields" only for
  enrollments whose hashes do not collide.
- A school `id` is an `i64` narrowed by `as i32` (`enroll.rs:58`), which wraps around
  and is not rejected. `Ints.AsI32` models the wrap.
- The declarations file is not checked for dangling school references as such. An
  enrollment naming an unknown school fails with the generic "Not all required fields
  found".

## Model

| member | source | states |
|---|---|---|
| CommandLine.ParseArgs | src/command.rs:29-35 | with no raw arguments the result is "No arguments to parse.", and only then; on success the path is the first raw argument; the only other error is "Mangled arguments" |
| CommandLine.ParseArgsLoop | src/command.rs:29-156 | the token loop with its mutable state, early return and final flush yields exactly the fold's result |
| CommandLine.OnlyPath | src/command.rs:148-149 | with only the binary path, the arguments are exactly `[Verb(None)]` |
| CommandLine.PathNotParsed | src/command.rs:35-43 | the path is only recorded: replacing it changes neither success nor the argument list |
| CommandLine.VerbPlacement | src/command.rs:41-152 | a verb is only ever the first argument: `Verb(Some(t))` when the first token t is bare and a known verb, `Verb(None)` when there are no tokens or the first is a switch, no verb at all when the first is another bare word |
| CommandLine.ParseArgsStringValued | src/command.rs:129-136 | every positional argument and option value produced is a `StringVal` |
| CommandLine.StepError | src/command.rs:86-97 | a single token fails exactly when it starts `-=`, with "Mangled arguments" |
| CommandLine.ParseTokensError | src/command.rs:43-143 | reading a token list fails exactly when one of its tokens starts `-=` |
| CommandLine.ParseArgsMangled | src/command.rs:91-97 | `parse_args` on a non-empty list fails exactly when some argument after the path starts `-=` |
| CommandLine.LongOption | src/command.rs:60-76 | `--name=value` settles the pending state, then yields `Opt(name, value)` split at the first `=`, the value keeping later `=` |
| CommandLine.LongPending | src/command.rs:78-82 | `--name` without `=` leaves `name` pending |
| CommandLine.PendingTakesValue | src/command.rs:135 | a pending switch followed by a bare token becomes `Opt(name, token)` |
| CommandLine.PendingBecomesFlag | src/command.rs:50-52 | a pending switch followed by another switch becomes `Flag(name)`, ahead of that switch's output |
| CommandLine.PendingAtEnd | src/command.rs:148-150 | a `--name` token as the last argument ends the list as `Flag(name)` |
| CommandLine.ClusterAtEnd | src/command.rs:148-150 | a short cluster `-abc` as the last argument ends the list with `Flag(c)`, its pending last letter |
| CommandLine.ShortOptionTwoTokens | src/command.rs:119-135 | `-x=value` and `-x value` produce the same parse, whatever follows, when the value does not start with `-` |
| CommandLine.LongOptionTwoTokens | src/command.rs:60-82 | `--name=value` and `--name value` produce the same parse, whatever follows, when the value does not start with `-` |
| CommandLine.DashValueSpellingsDiffer | src/command.rs:86-120 | the two spellings differ when the value starts with `-`: `prog -x=-1` gives `Opt(x, "-1")`, `prog -x -1` gives `Flag(x)` then `Flag(1)` |
| CommandLine.LoneDash | src/command.rs:86-88 | a lone `-` produces nothing beyond settling what was pending |
| CommandLine.ShortCluster | src/command.rs:104-113 | `-abc` yields `Flag(a)`, `Flag(b)` in order and leaves `c` pending |
| CommandLine.ShortOption | src/command.rs:91-102 | `-x=value` yields `Opt(x, value)` |
| Ints.AsI32 | src/enroll.rs:58 | the 64-bit id narrows to a 32-bit value congruent to it modulo 2^32, and unchanged when it fits |
| Enroll.EqualFieldsAreSame | src/enroll.rs:220-224 | enrollments with equal subdomain, school id and class have equal idents and compare equal |
| Enroll.SameIsEquivalence | src/enroll.rs:220-226 | comparison by ident is reflexive, symmetric and transitive for any hasher |
| Enroll.SameIsFieldEquality | src/enroll.rs:26-30 | among enrollments whose idents do not collide, comparing equal is exactly having the same fields |
| Enroll.GetSubdomain | src/enroll.rs:32-34 | the accessor returns the stored subdomain: rebuilding with it gives the same enrollment |
| Enroll.GetSchoolId | src/enroll.rs:36-38 | the accessor returns the stored school id |
| Enroll.GetClass | src/enroll.rs:40-42 | the accessor returns the stored class |
| Enroll.ExtractSchoolName | src/enroll.rs:44-54 | a string key is the school's name; anything else is "Bad School Name" |
| Enroll.ExtractIdField | src/enroll.rs:56-65 | succeeds exactly on an integer, narrowed as `as i32` does; otherwise "School ID is not an Integer" |
| Enroll.ExtractSubdomainField | src/enroll.rs:67-76 | a string is the subdomain; anything else is "School Subdomain is not a String" |
| Enroll.ExtractSchoolInfoSpec | src/enroll.rs:78-118 | a non-mapping gives "Bad School Info"; else the first entry with a non-string key, non-integer `id` or non-string `subdomain` decides the error; else the last `id` and `subdomain` are returned, and each missing combination has its own message |
| Enroll.ExtractSchoolInfoSucceeds | src/enroll.rs:78-100 | school info is read exactly when it is a mapping with string keys, an integer `id` and a string `subdomain`; other keys are ignored |
| Enroll.ExtractSchoolsSpec | src/enroll.rs:120-138 | a non-mapping gives "No School Map"; the first bad name or info decides the error; on success the table's names are exactly the mapping's string keys, each with its declared info |
| Enroll.ExtractEnrollmentSpec | src/enroll.rs:141-176 | a non-mapping is refused; otherwise the id and subdomain come from the table entry the last `school` entry names, the class from the last string `class` entry, and "Not all required fields found" when either is missing |
| Enroll.CollectEnrollments | src/enroll.rs:180-186 | the list is read in order and keeps its length; it succeeds exactly when every item does, else fails with the first failing item's error |
| Enroll.ExtractEnrollments | src/enroll.rs:178-193 | a non-array gives "Array of enrollments not found."; otherwise item i of the result is enrollment i of the array |
| YamlTree.Get | src/enroll.rs:202 | `doc["key"]` is the value under the string key in a mapping, and `BadValue` for a missing key or a non-mapping |
| Enroll.FromDocuments | src/enroll.rs:201-216 | with no documents the result is "No YAML docs in read"; otherwise the last document alone decides |
| Enroll.Load | src/enroll.rs:195-200 | a read failure becomes an I/O message, a scan failure a YAML message, otherwise the documents are read |
| Enroll.DeclarationsRoundTrip | src/enroll.rs:195-216 | a document declaring distinctly named schools and enrollments naming them reads back as those enrollments, in order, with each school's id and subdomain |
| Output.New | src/output.rs:39-44 | the three texts are stored verbatim |
| Output.Description | src/output.rs:22-24 | the description is the message text |
| Output.Display | src/output.rs:31-35 | the display is the first line followed by the second, of length 2·|process| + |message| + |activity| + 14 characters |
| Output.DisplayAlignment | src/output.rs:33-34 | the second line's padding is exactly as wide as the `[process]` tag, so "while" starts in the message's column |
| Output.ParseDisplayRoundTrip | src/output.rs:31-35 | a message whose process has no `]` and whose text has no newline is read back from its display unchanged |
| Output.DisplayInjective | src/output.rs:31-35 | two such messages with the same display are the same message |
| Output.FromIoError | src/output.rs:59-68 | process "IO Operation", the error kind as activity, the inner description or "No Message" |
| Output.FromReqwestError | src/output.rs:70-82 | process "Web Request", activity "Serialisation", the HTTP or serialisation description, otherwise "Redirect Error" |
| Output.FromJsonError | src/output.rs:84-93 | a syntax error gives "Web Request" / "Parsing JSON Response" with its position; an I/O error gives exactly the I/O conversion's message |
| Output.SyntaxErrorPosition | src/output.rs:87-89 | the line and column can be read back, as decimal numbers, from a syntax error's message |
| Strings.Decimal | src/output.rs:89 | a number is formatted as its shortest decimal digits, which denote it |
| Output.FromScanError | src/output.rs:95-101 | process "Reading YAML File", the scan error's description as activity, its display as message |
| Interface.AddQuery | src/interface.rs:21-26 | the url gains `?` and one `&key=value` per parameter in iteration order; with none it is `url?`, otherwise the query starts `?&`; its length is |url| + 1 + Σ(|key| + |value| + 2) |
| Interface.Segment | src/interface.rs:24 | a parameter's segment is `&`, the key verbatim, `=`, the value verbatim |
| Interface.AddQueryLengthOrderFree | src/interface.rs:23-25 | the resulting length is the same for every iteration order of the same parameters |
| Interface.EachParamAppears | src/interface.rs:23-25 | every parameter's `&key=value` occurs contiguously in the query, whatever the order |

## Left out

- HTTP and JSON fetching in `src/interface.rs` (`Interface::new`, `get_request`, `get_schools` … `get_classes`, `unwrap_json`): network I/O and library JSON navigation. Only `add_query` is modelled.
- `src/calendar.rs`: the cache and calendar lifecycle. `Cache::build` is a stub, and the remainder is file and JSON plumbing with no logic of its own to state.
- `src/smh.rs`: plain records with no behaviour. `src/main.rs`: process entry glue.
- File opening, reading and YAML scanning in `Enrollment::load`: the read result and the scanner are parameters of `Enroll.Load`.
- `DefaultHasher` internals: `ident` takes the hash function as a parameter.
- `Message::error` and `Message::panic`: printing, process exit and panic. `Error::cause`, which returns the message itself, is not modelled either.
- Library error texts (I/O error kinds, descriptions, `Debug` and `Display` renderings) are opaque strings.
- YamlTree.Get: a YAML mapping here is a sequence of entries that may repeat a key. The library's mappings never do, so the first match stands for the library's lookup. The extraction functions read every entry in order, as the source's loops do.
- The hash map behind the query parameters: iteration order and key distinctness are not modelled, since no proved fact depends on either.
