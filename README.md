# confluent configuration core, modelled in Dafny

confluent reads one YAML file that declares typed constants (`properties`) and the
target languages (`languages`). It then writes one constant class or module per
language. This project models the part that turns a validated configuration into
language configurations, and the Java generator's rendering hooks:

- **Config parsing**: collecting the properties, the `${NAME}` substitution pass,
  dropping hidden properties, and the per-language loop that builds one language
  configuration per entry. Also the decoders this step relies on: property type tags,
  naming-convention tags, the language registry lookups and the exception kinds.
- **Java rendering**: the package-name check, the class frame, the trailing comment,
  and the `public final static <type> <NAME> = <literal>;` line with its literal and
  backslash escaping.
- **The orchestrator**: construction, `dump`, the configuration name derived from a
  file path in `read_config`, and `parse_config`.

Modules:

| module | file |
|---|---|
| `Results` | `results.dfy` |
| `Texts` | `texts.dfy` |
| `Properties` | `properties.dfy` |
| `Substitution` | `substitution.dfy` |
| `ConfigParsing` | `config_parsing.dfy` |
| `JavaRendering` | `java_rendering.dfy` |
| `Orchestration` | `orchestration.dfy` |

What each module holds:

- `Results`: `Option` and `Result`.
- `Texts`: split, join, character counts and decimal text.
- `Properties`: the property value model.
- `Substitution`: the `re.sub` scanner and the substitution pass.
- `ConfigParsing`: the decoders and `Config.parse`.
- `JavaRendering`: the Java generator.
- `Orchestration`: the orchestrator.

How the code is modelled:

- Python exceptions are `Err` values.
- The substitution pass rewrites `property.value` in place. It becomes a method that
  reassigns the element of a property sequence: `ps[i := ...]`.
- The pure decoders and rendering hooks are functions.
- The loops in `Config.parse` and in the `re.sub` scan are methods. Each is proved equal
  to a specification function, and the properties are proved about that function.

Where the code and its description differ, the model follows the code:

- The naming-convention decoder accepts `kebap` (not `kebab`).
- `RecursiveSubstitutionException` is raised with a fixed message. It does not carry the
  property's name.
- `SeveralLanguageConfigsException` is raised with a fixed message. It does not carry the
  language type.
- A placeholder naming a property whose value is not a string makes `re.sub` fail, because
  its callback returns a non-string. The failure comes only when `re.sub` joins the pieces,
  after every callback has run, so a later placeholder whose callback raises still decides
  the error. The model reports the join failure as the error `NonStringSource`.
- A `string` or `regex` property whose value is not a string cannot be rendered, because
  `.replace` does not exist on it. The model reports this as the error `NonStringValue`.

## Model

| member | source | states |
|---|---|---|
| Substitution.PlaceholderLength | src/confluent/base/config.py:137 | the pattern `\${(\w+)}` tried at the front of a text: a match is at least four characters long and fits in the text; `PlaceholderShape` and `PlaceholderAtFront` state what it matches |
| Substitution.Tokens | src/confluent/base/config.py:137 | the left-to-right, non-overlapping scan of `re.sub` as literal characters and placeholders; no contract of its own; `TokensRoundTrip` and `TokenNamesAreWords` state what it keeps |
| Substitution.WordRun | src/confluent/base/config.py:137 | the greedy `\w+` of the pattern: the length of the run of word characters at the front, never longer than the text; `WordRunMaximal` states that it is the longest such run |
| Substitution.WordRunMaximal | src/confluent/base/config.py:137 | the `\w+` run that a placeholder name consists of holds only word characters and stops at the first non-word character |
| Substitution.PlaceholderShape | src/confluent/base/config.py:137 | a recognised placeholder is exactly `${`, a non-empty word, and `}` |
| Substitution.TokensRoundTrip | src/confluent/base/config.py:137 | the left-to-right, non-overlapping scan loses nothing: spelling the tokens back out gives the original value |
| Substitution.TokenNamesAreWords | src/confluent/base/config.py:137 | every placeholder the scan finds names a non-empty word |
| Substitution.PlaceholderAtFront | src/confluent/base/config.py:137 | `${word}` at the front of a value is always matched as a placeholder, whatever follows it |
| Substitution.FirstNamed | src/confluent/base/config.py:124-131 | the index found is the first property with that name, and every such first index is the one found; there is none exactly when no property has the name |
| Substitution.Resolve | src/confluent/base/config.py:118-134 | the callback: a reference to the current property raises the recursion error (and only then); a name no property has raises the unknown-substitution error (and only then); otherwise it returns the value of the first property with that name, whatever its kind |
| Substitution.Piece | src/confluent/base/config.py:118-137 | what one token puts into the joined result: a literal character itself; for a placeholder, the recursion and unknown errors exactly as the callback raises them, the string value of the first property with that name when it holds a string, and the non-string failure for that name exactly when it holds a number or boolean |
| Substitution.Then | src/confluent/base/config.py:137 | combining two stretches of one scan: an error raised by a callback comes out exactly when one of them raises, the earlier raise winning; the result is text exactly when both are text, and is then their concatenation; a non-string failure comes out only when no callback raised, the earlier one winning |
| Substitution.ExpandTokens | src/confluent/base/config.py:118-137 | the pieces of a scanned value combined in order; no contract of its own; `ExpandTokensOutcome` states when it succeeds and which error it gives |
| Substitution.Expand | src/confluent/base/config.py:137 | the `re.sub` call on one string value; no contract of its own; `ExpandTokensOutcome`, `ExpandSplice` and `ExpandOnePlaceholder` state its result, and `ExpandValue` computes it |
| Substitution.ExpandTokensOutcome | src/confluent/base/config.py:118-137 | expanding a value succeeds exactly when every token contributes text; it fails with a callback error exactly when some callback raises, and then with that of the first; otherwise it fails at the first placeholder whose value is not a string |
| Substitution.NonStringReference | src/confluent/base/config.py:118-137 | when no callback raises, a value fails exactly when some placeholder refers to a non-string value, and then with the non-string error naming the first such placeholder, whatever follows it |
| Substitution.NoPlaceholderUnchanged | src/confluent/base/config.py:136-137 | a value with no placeholder is unchanged |
| Substitution.NoDollarUnchanged | src/confluent/base/config.py:136-137 | a value with no `$` is unchanged |
| Substitution.ExpandSplice | src/confluent/base/config.py:118-137 | a placeholder at the front is replaced by its referenced string value and the rest is expanded on its own, so the inserted text is never rescanned; a refused reference fails at once; a non-string value fails at the join unless a later callback raises first |
| Substitution.ExpandDollarFree | src/confluent/base/config.py:137 | text without `$` in front of the rest is copied unchanged in front of the rest's expansion |
| Substitution.ExpandOnePlaceholder | src/confluent/base/config.py:118-137 | `before${NAME}after`, with no `$` around the placeholder, becomes `before + value + after` when the value is a string; it fails with the non-string error when the value is of another kind, and with the callback's error when the reference is refused |
| Substitution.SelfReference | src/confluent/base/config.py:123-133 | a value that references its own property always fails; a recursion error arises only from such a self-reference |
| Substitution.UnknownReference | src/confluent/base/config.py:124-130 | a value that references a name no property has always fails; an unknown-substitution error names a referenced name that is not the current property and that no property carries |
| Substitution.NonStringThenRaise | src/confluent/base/config.py:118-137 | in `${F}${M}`, when `F` resolves to a number or boolean and the callback for `M` raises, the value fails with `M`'s error, not with the non-string failure |
| Substitution.LaterUnknownWins | src/confluent/base/config.py:116-137 | for a list holding a non-string `F` and a value `${F}${M}` where no property is called `M`, the pass fails with the unknown-substitution error for `M` |
| Substitution.ExpandFailureByKinds | src/confluent/base/config.py:117-137 | whether and how an expansion fails depends only on the names of the properties and on which of them hold strings, not on the string contents |
| Substitution.ScanStep | src/confluent/base/config.py:137 | one match of the scan: the piece is exactly the contribution of the token found at the position, and the scan moves just past that token; the expansion from that position is that piece combined with the expansion of the rest |
| Substitution.ExpandValue | src/confluent/base/config.py:118-137 | the scanning loop, which stops at the first callback that raises and remembers the first non-string value for the join, computes exactly the specified expansion of the value |
| Substitution.SubstituteFrom | src/confluent/base/config.py:116-137 | the substitution loop from one index on; no contract of its own; `SubstituteFromValues` and `SubstituteFromOutcome` state its result |
| Substitution.Substituted | src/confluent/base/config.py:116-137 | the whole substitution pass; no contract of its own; `SubstitutedValues` and `SubstitutedOutcome` state its result, and `SubstituteAll` computes it |
| Substitution.SubstituteAll | src/confluent/base/config.py:116-137 | the in-place loop over the property list gives exactly the specified substitution pass |
| Substitution.SubstitutedValues | src/confluent/base/config.py:116-137 | after the pass the list has the same length; every property keeps its type, name, hidden flag and comment; non-string values are unchanged; the value at index k is its original text expanded against the list as it then stood (earlier values already substituted, later ones original) |
| Substitution.SubstitutedOutcome | src/confluent/base/config.py:116-137 | the pass succeeds exactly when every string value expands against the original list; a failure is the error of the first value that does not |
| ConfigParsing.EvaluateDataType | src/confluent/base/config.py:188-215 | a tag decodes exactly when it is one of `bool`, `int`, `float`, `double`, `string`, `regex`, and decodes to the type spelled by that tag; any other tag raises an unknown-property-type error carrying the tag |
| ConfigParsing.DataTypeTags | src/confluent/base/config.py:201-212 | every property type is decoded from its own tag, and no two types share a tag |
| ConfigParsing.EvaluateNamingConvention | src/confluent/base/config.py:269-290 | `snake`, `screaming_snake`, `camel`, `pascal` and `kebap` decode to the convention spelled by the tag; any other input, a missing one included, is returned unchanged |
| ConfigParsing.ConventionTags | src/confluent/base/config.py:280-289 | every naming convention is decoded from its own tag |
| ConfigParsing.Positions | src/confluent/base/config.py:233 | the registry filter (also at config.py:260): it holds exactly the positions whose entry matches the key, each once and in increasing order; `PositionsCount` states what none, one and several matches mean |
| ConfigParsing.PositionsCount | src/confluent/base/config.py:233-234 | the registry filter finds no entry exactly when no entry matches, more than one exactly when two distinct entries match, and otherwise one entry that is the only match |
| ConfigParsing.EvaluateLanguageType | src/confluent/base/config.py:217-240 | a name no mapping carries raises the unknown-language error; a name two mappings carry raises the several-languages error; otherwise the result is the type of the only mapping with that name |
| ConfigParsing.EvaluateConfigType | src/confluent/base/config.py:242-267 | a type no mapping carries raises the no-language-config error; a type two mappings carry raises the several-language-configs error; otherwise the result is the configuration of the only mapping for that type |
| Properties.IsHidden | src/confluent/base/config.py:140 | `property.hidden` is truthy: only an explicit `hidden: true` hides a property, while a missing or false flag keeps it; no contract of its own; `VisibleSingle` states its effect on the filter |
| ConfigParsing.Visible | src/confluent/base/config.py:140 | the hidden filter; no contract of its own; `VisibleMembers`, `VisibleConcat` and `VisibleSingle` state what it keeps |
| ConfigParsing.VisibleMembers | src/confluent/base/config.py:139-140 | the filtered list is no longer than the original, and holds exactly the properties of the original that are not hidden |
| ConfigParsing.VisibleConcat | src/confluent/base/config.py:140 | the filter keeps the order: filtering a concatenation concatenates the filtered parts |
| ConfigParsing.VisibleSingle | src/confluent/base/config.py:140 | one property survives the filter exactly when it is not hidden (`hidden` missing or false keeps it) |
| ConfigParsing.CollectProperties | src/confluent/base/config.py:106-114 | one property per validated entry, in order; no contract of its own; `CollectPropertyList` computes it with the source's loop |
| ConfigParsing.ConfigFor | src/confluent/base/config.py:144-160 | what one language configuration is built from: its configuration type, the configuration name, the decoded naming convention, the shared property list, the `indent` and the whole language entry; no contract of its own; `BuildConfigsValues` and `ParsedConfigs` state where it is used |
| ConfigParsing.BuildConfigs | src/confluent/base/config.py:142-162 | the language loop from one entry on; no contract of its own; `BuildConfigsOutcome` and `BuildConfigsValues` state its result |
| ConfigParsing.Parsed | src/confluent/base/config.py:103-162 | the whole of `Config.parse` after validation; no contract of its own; `ParsedOutcome` and `ParsedConfigs` state its result, and `Parse` computes it |
| ConfigParsing.CollectPropertyList | src/confluent/base/config.py:106-114 | the collection loop makes one property per entry, in order, carrying the entry's type, name, value, hidden flag and comment |
| ConfigParsing.Parse | src/confluent/base/config.py:103-162 | the parse method (collect, substitute, filter, then the language loop) returns exactly the specified result |
| ConfigParsing.BuildConfigsOutcome | src/confluent/base/config.py:142-162 | the language loop succeeds exactly when every entry's type has one configuration; otherwise it fails with the lookup error of the first entry that does not |
| ConfigParsing.BuildConfigsValues | src/confluent/base/config.py:142-160 | on success there is one configuration per language entry, in order, each built from its entry and the same property list |
| ConfigParsing.ParsedOutcome | src/confluent/base/config.py:116-162 | a substitution error is returned as is; parsing succeeds exactly when substitution succeeds and every language entry has a configuration; otherwise the first lookup error is returned |
| ConfigParsing.ParsedConfigs | src/confluent/base/config.py:139-162 | a successful parse gives one configuration per language entry, all sharing the substituted list with hidden properties removed; no configuration holds a hidden property |
| ConfigParsing.HiddenSourceSubstituted | src/confluent/base/config.py:116-137 | with hidden `NAME = World` and `GREETING = Hello ${NAME}!`, the pass leaves `NAME` as it is and turns `GREETING` into `Hello World!` |
| ConfigParsing.HiddenSourceBuilt | src/confluent/base/config.py:139-162 | with one language entry, the hidden property is dropped and one configuration holds only the visible property |
| ConfigParsing.HiddenSourceScenario | src/confluent/base/config.py:103-162 | a hidden property is used by a substitution and does not appear in the output: the one language gets only `GREETING = Hello World!` |
| JavaRendering.EvaluatePackageName | src/confluent/generators/java_generator.py:79-87 | a missing `package` key raises the no-package error (and only that); a falsy package value raises the empty-package error (and only that); a present, truthy value is returned as it is, and any returned package is that value |
| JavaRendering.NewJavaGenerator | src/confluent/generators/java_generator.py:25-36 | construction fails exactly when the package check fails, and then with that check's own error; on success it keeps the class name and the package value |
| JavaRendering.PropertyBeforeClass | src/confluent/generators/java_generator.py:38-39 | nothing is emitted before the class for a property |
| JavaRendering.PropertyComment | src/confluent/generators/java_generator.py:64-65 | the comment sits between ` /* ` and ` */` and can be read back unchanged |
| JavaRendering.BeforeClass | src/confluent/generators/java_generator.py:67-68 | the preamble is `package `, the package's text and `;` plus an empty line; the package can be read back from it |
| JavaRendering.AfterClass | src/confluent/generators/java_generator.py:70-71 | nothing follows the class |
| JavaRendering.StartClass | src/confluent/generators/java_generator.py:73-74 | the header is `public class <name> {`, and the class name can be read back from it |
| JavaRendering.EndClass | src/confluent/generators/java_generator.py:76-77 | the class closes with a single `}` |
| JavaRendering.Escape | src/confluent/generators/java_generator.py:57 | escaping lengthens the text by exactly its number of backslashes |
| JavaRendering.EscapeRoundTrip | src/confluent/generators/java_generator.py:57 | reading the doubled backslashes back as single ones gives the original string |
| JavaRendering.EscapeInjective | src/confluent/generators/java_generator.py:57 | different strings never escape to the same literal |
| JavaRendering.JavaTypeName | src/confluent/generators/java_generator.py:42-56 | the Java type each property type is declared with; no contract of its own; `PropertyInClass` states that the declaration uses it |
| Properties.Truthy | src/confluent/generators/java_generator.py:45 | Python truthiness of a scalar (also the `if not package` test at java_generator.py:85); no contract of its own; `LiteralMeaning` and `EvaluatePackageName` state how it decides the `bool` literal and the package check |
| Properties.Text | src/confluent/generators/java_generator.py:46-54 | `str` of a scalar, as the f-strings of the literals and the package preamble (java_generator.py:68) use it; no contract of its own; `IntTextRoundTrip` and `LiteralMeaning` state what the text holds |
| JavaRendering.JavaLiteral | src/confluent/generators/java_generator.py:42-61 | a literal cannot be made exactly when the type is `string` or `regex` and the value is not a string; that error names the property |
| JavaRendering.LiteralMeaning | src/confluent/generators/java_generator.py:42-58 | a `bool` literal is `true` exactly when the value is truthy, and `false` otherwise; an `int` literal is the value's text; `float` and `double` literals are the value's text followed by `f` and `d`; a `string` or `regex` literal is quoted, unescapes to the value, and is two characters plus the value's length plus its backslash count long |
| JavaRendering.Declaration | src/confluent/generators/java_generator.py:62 | the line is `public final static `, then the type, name and literal, then `;`, and the inner part can be read back |
| JavaRendering.PropertyInClass | src/confluent/generators/java_generator.py:41-62 | rendering fails exactly when the literal cannot be made; on success the line declares the property's Java type, its name and its literal |
| JavaRendering.BooleanFlagScenario | src/confluent/generators/java_generator.py:43-45 | a `bool` property `MY_FLAG` set to true renders as `public final static boolean MY_FLAG = true;` |
| JavaRendering.PackageScenario | src/confluent/generators/java_generator.py:67-87 | with `package: com.example` the generator is constructed and its preamble is `package com.example;` followed by an empty line |
| JavaRendering.RegexScenario | src/confluent/generators/java_generator.py:55-58 | a regex `a\b` is written as `"a\\b"`: its backslash is doubled |
| Orchestration.NewOrchestrator | src/confluent/base/orchestrator.py:9-14 | a missing list becomes the empty list; a given list is kept as is (an empty one stays empty) |
| Orchestration.DumpAll | src/confluent/base/orchestrator.py:16-23 | one text per configuration, in the same order, each being that configuration's own dump |
| Orchestration.Dump | src/confluent/base/orchestrator.py:16-23 | the orchestrator's dump has one entry per held configuration, in order, each that configuration's dump |
| Orchestration.ReplaceDoubleBackslash | src/confluent/base/orchestrator.py:53 | an empty path stays empty; the first character becomes `/` exactly when the path starts with a backslash pair |
| Orchestration.ReplaceBackslashFree | src/confluent/base/orchestrator.py:53 | text without backslashes is copied unchanged in front of the replaced rest |
| Orchestration.ReplacePair | src/confluent/base/orchestrator.py:53 | the first backslash pair becomes one `/`, the text before it is kept and the rest is replaced on its own |
| Orchestration.ReplaceSingle | src/confluent/base/orchestrator.py:53 | a single backslash not followed by another is kept, and the rest is replaced on its own |
| Orchestration.ReplaceKeepsSingleBackslashes | src/confluent/base/orchestrator.py:53 | a path without a backslash pair is left unchanged, single backslashes included |
| Orchestration.ReplaceLeavesNoPair | src/confluent/base/orchestrator.py:53 | no backslash pair survives the replacement |
| Texts.Split | src/confluent/base/orchestrator.py:53-56 | `str.split` on one character: one more piece than there are separators, and no piece holds the separator; `JoinSplit` states that nothing is lost |
| Texts.Join | src/confluent/base/orchestrator.py:56 | `str.join` with one character; no contract of its own; `JoinSplit` states that it undoes `Split` |
| Texts.JoinSplit | src/confluent/base/orchestrator.py:56 | joining the pieces of a split with the same separator gives back the original text |
| Orchestration.LastSegment | src/confluent/base/orchestrator.py:53 | the last path component after the backslash replacement; no contract of its own; `LastSegmentShape` states its shape |
| Orchestration.ConfigName | src/confluent/base/orchestrator.py:53-58 | the configuration name derived from a path; no contract of its own; `ConfigNameShape`, `ConfigNameInDirectory`, `ConfigNameInEscapedDirectory` and `ConfigNameOfBareFile` state its result |
| Orchestration.LastSegmentShape | src/confluent/base/orchestrator.py:53 | the last component holds no slash, and is either the whole replaced path or what follows its last slash |
| Orchestration.ConfigNameShape | src/confluent/base/orchestrator.py:55-58 | with a `.` in the last component, the component is the name, a dot and a dot-free extension; without one, the name is the whole component; the name never holds a slash |
| Orchestration.ConfigNameInDirectory | src/confluent/base/orchestrator.py:52-58 | for `dir/base.ext` (no backslashes, no slash in `base.ext`, no dot in `ext`) the name is `base`, with any inner dots kept |
| Orchestration.ConfigNameInEscapedDirectory | src/confluent/base/orchestrator.py:52-58 | for `dir\\base.ext` (a backslash pair as separator) under the same conditions the name is again `base` |
| Orchestration.ConfigNameOfBareFile | src/confluent/base/orchestrator.py:52-58 | for a bare `base.ext` under the same conditions the name is `base` (so `.yaml` gives the empty name) |
| Orchestration.ParseConfig | src/confluent/base/orchestrator.py:61-78 | the orchestrator holds exactly the list the parse returns, and parse errors are passed on |
| Orchestration.ReadConfig | src/confluent/base/orchestrator.py:38-59 | reading a file parses its content under the name derived from the path; the result and errors are those of the parse |
| Texts.NatText | src/confluent/generators/java_generator.py:48 | `str()` of a non-negative `int`, as the `int` literal is written: at least one character, all decimal digits, starting with `0` exactly for zero and so never zero-padded; `NatTextRoundTrip` states that it reads back |
| Texts.IntText | src/confluent/generators/java_generator.py:48 | `str()` of any `int`: a `-` before the digits of a negative value; no contract of its own; `IntTextRoundTrip` states that it reads back |
| Texts.NatTextRoundTrip | src/confluent/generators/java_generator.py:46-48 | the decimal text of a non-negative `int` literal reads back as the same number |
| Texts.IntTextRoundTrip | src/confluent/generators/java_generator.py:46-48 | the text of any `int` literal, negative ones with their leading `-`, reads back as the same number; it starts with `-` exactly when the number is negative |

## Left out

- YAML loading and schema validation (`Config.parse` lines 101-102, `Config._schema`):
  - the model starts from the validated document;
  - type tags and language names in a document are already decoded;
  - the decoders themselves (`EvaluateDataType`, `EvaluateLanguageType`) are modelled on their own.
- Reading the file in `read_config`, and `write`: file I/O is not modelled. `ReadConfig` takes the file's parsed content as a parameter.
- The registry contents (`ConfigLanguageMapping.get_mappings()`) are a parameter. Language types and configuration implementations are opaque identifiers.
- The language configuration classes and `GeneratorBase` (how `dump` assembles the hooks, naming conversion, indentation) are not part of this model. `Dump` takes each configuration's dump as a function, and the Java package check is modelled as the generator's constructor, not inside the configuration class.
- Property objects are modelled as values in a sequence. Nothing aliases them while the parse runs.
- Float formatting: a float value is kept as the text Python's `str` gives it. Its truthiness is read from that text (`0.0` and `-0.0` are false).
- `\w` in the placeholder pattern is modelled as ASCII letters, digits and `_`. Python's pattern on `str` also matches other Unicode word characters.
- Additional language parameters other than scalars or YAML null (lists, nested maps) are not modelled.
- Exception message texts are not modelled. The configuration errors and the package errors carry the data the code passes to their exceptions. `NonStringSource(name)` and `NonStringValue(name)` are labels of this model: Python's `TypeError` from the join and `AttributeError` from `.replace` do not carry the property's name.
- ConfigParsing.ParsedOutcome: the language loop is modelled as recording what each configuration is built from, so constructing a language configuration is taken never to raise. A Java configuration whose generator refuses the package name (see `NewJavaGenerator`) would raise inside the loop; that error is not among the outcomes stated here.
- ConfigParsing.BuildConfigsOutcome: for the same reason, only the configuration-type lookup can make the loop fail in this model.
- Orchestration.Dump: `dump` of a configuration is taken not to raise; each configuration's text is a total function parameter.
