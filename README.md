# JSHint::Lint — a Dafny model

This project models `JSHint::Lint`, the Ruby class that drives the JSHint
runner. When it is made, the class resolves its configuration and the
list of files to lint:

- the custom config merged over the default config;
- a `predef` list joined into one comma-separated string;
- files chosen by glob patterns, minus the excluded ones and minus empty files;
- the two selection keys removed.

Its `run` method does four things in order:

1. Checks that Java answers `OK`, and stops checking once a check has passed. A failed check is tried again on the next run.
2. Announces itself.
3. Flattens the configuration into a `key=value&...` token. Each value is written in a JSON-like dialect by `to_json`.
4. Launches the engine, and raises `LintCheckFailure` when the engine reports failure.

Modules:

- `Wrappers` holds `Option` and `Result`.
- `Values` holds the configuration values: a Ruby Hash is an ordered association list with unique keys.
- `Text` covers Ruby's string handling: `join`/`split`, `Integer#to_s`, `String#strip`, `String#inspect` with a reader that undoes it, and `gsub(/\$/, "\\$")` with its inverse.
- `Config` covers config resolution.
- `Selection` covers file selection.
- `Json` holds `to_json`, a decoder for its output, `option_string` and the argument token.
- `Lint` holds the class itself.

In the class, `config`, `fileList` and `javaOk` are fields. The constructor, `CheckJava` and `Run` are methods. Each of these is proved against a pure function (`ResolveConfig`, `SelectedFiles`, `CheckJavaSpec`, `RunSpec`), and properties are proved about those functions.

The processes the class starts are not executed in the model:

- Each launch is recorded in the ghost event trace `events` as its command line.
- What a launch yields is a parameter: the probe's output and the engine's exit status.

The `Utils` helpers, `Dir[]` and `File.size` are parameters too, grouped in the `Utils` and `FileSystem` datatypes.

Two points about the code's behaviour:

- **When the configuration is serialised.** The configuration is serialised in `run` (lib/jshint/lint.rb:41), after the Java probe has been launched and after the announcement. So an unencodable value raises `ArgumentError` only then, not when the object is made.
- **What the error names.** The `ArgumentError` names the value's class (lib/jshint/lint.rb:89), not its key.

The model follows Ruby 2.4 to 3.1:

- Hashes keep insertion order (Ruby 1.9 and later).
- `Fixnum` is an alias of `Integer`, so every integer is a Fixnum (Ruby 2.4 up to 3.1). Ruby 3.2 removed the constant, so there line 84 raises `NameError` for every value that is not a Hash, an Array or a String.
- `Hash#inspect` writes `"k"=>v` (Ruby before 3.4).

## Model

| member | source | states |
|---|---|---|
| Values.Merge | lib/jshint/lint.rb:24 | `default.merge(custom)`: each custom entry stored in turn; its lookups, key order and key set are stated by MergeGet, MergeKeys and MergeKeySet |
| Values.MergeGet | lib/jshint/lint.rb:24 | after `default.merge(custom)` a key of the custom config has the custom value, any other key the default's, a key in neither is missing |
| Values.MergeKeySet | lib/jshint/lint.rb:24 | a key is in the merged config exactly when it is in the default config or in the custom one |
| Values.MergeKeys | lib/jshint/lint.rb:24 | merge order: the default's keys keep their places, the custom config's new keys follow in its order |
| Values.MergeUnique | lib/jshint/lint.rb:24 | merging keeps every key unique |
| Values.MergeToMap | lib/jshint/lint.rb:24 | forgetting order, the merge is map union with the custom values winning |
| Values.PutGet | lib/jshint/lint.rb:27 | `h[k] = v` makes k read v and leaves every other key's value alone |
| Values.PutKeys | lib/jshint/lint.rb:27 | assignment keeps an existing key in its place and appends a new one |
| Values.RemoveGet | lib/jshint/lint.rb:35 | `h.delete(k)` makes k missing and leaves every other key's value alone |
| Values.RemoveKeys | lib/jshint/lint.rb:35 | deletion removes exactly k from the key order |
| Values.RemoveAllGet | lib/jshint/lint.rb:35 | after deleting a list of keys, each of them is missing and every other key reads as before |
| Config.JoinTextStrings | lib/jshint/lint.rb:27 | `Array#join(",")` on a list of strings is plain joining with the separator |
| Config.JoinText | lib/jshint/lint.rb:27 | `Array#join(sep)`: nested arrays joined recursively, nil as empty text, other values by their `to_s`; its laws are the Join rows below |
| Config.JoinTextAppend | lib/jshint/lint.rb:27 | joining two non-empty lists puts exactly one separator between their joined texts |
| Config.JoinFlattensNested | lib/jshint/lint.rb:27 | a non-empty nested list joins as if its elements stood in the outer list |
| Config.JoinEmptyNested | lib/jshint/lint.rb:27 | an empty nested list is an empty element: `["a", [], "b"]` joins to `a,,b` |
| Config.JoinFlattens | lib/jshint/lint.rb:27 | an example: `["a", ["b", "c"]]` joins to `a,b,c` |
| Config.PredefNamesRecoverable | lib/jshint/lint.rb:26-28 | a `predef` list of names without commas is recovered, in order, by splitting the joined string at commas |
| Text.SplitJoin | lib/jshint/lint.rb:27 | joining with a separator no part contains is undone by splitting at it |
| Text.JoinDoesNotEscape | lib/jshint/lint.rb:27 | join does no escaping: a name containing a comma reads as two names |
| Config.NormalizePredef | lib/jshint/lint.rb:26-28 | the `predef` step: an Array under `predef` replaced by its comma join; NormalizePredefSpec states the result key by key |
| Config.NormalizePredefSpec | lib/jshint/lint.rb:26-28 | an array under `predef` becomes its joined string, any other `predef` value stays as it is, all other keys keep values and places |
| Config.NormalizePredefIdempotent | lib/jshint/lint.rb:26-28 | normalising `predef` a second time changes nothing |
| Lint.SelectionSeesMergedKeys | lib/jshint/lint.rb:24-33 | the `paths` and `exclude_paths` values that file selection reads are the merged ones, the custom config's when it has the key and the default's otherwise |
| Config.ResolveConfig | lib/jshint/lint.rb:22-35 | `@config` after `initialize`: merge, `predef` step, selection keys deleted; its lookups, key order and uniqueness are the three rows below |
| Config.ResolveConfigGet | lib/jshint/lint.rb:22-35 | the resolved config lacks `paths` and `exclude_paths`, holds the flattened merged `predef`, and otherwise the custom value if the custom config has the key, else the default's |
| Config.ResolveConfigKeys | lib/jshint/lint.rb:24-35 | the resolved key order is the merged key order less the two selection keys |
| Config.ResolveConfigUnique | lib/jshint/lint.rb:24-35 | the resolved config has unique keys |
| Selection.PatternListWraps | lib/jshint/lint.rb:73 | wrapping happens at most once (the wrapped list is left alone when wrapped again), and a single string pattern expands to what its glob gives |
| Selection.Patterns | lib/jshint/lint.rb:72-73 | the patterns come from the option when it is truthy, else from the config key when that is truthy, else there are none |
| Selection.OptionsOverrideConfig | lib/jshint/lint.rb:72 | with a truthy option the config's value has no effect on the selected files |
| Selection.SinglePattern | lib/jshint/lint.rb:73-74 | a single string pattern selects what that pattern matches |
| Selection.FilesMatchingPaths | lib/jshint/lint.rb:71-76 | `files_matching_paths`: the chosen patterns globbed in order, then made unique; which patterns are chosen and what the expansion holds are stated by Patterns, ExpandMembers and ExpandAppend |
| Selection.ExpandMembers | lib/jshint/lint.rb:74 | a file is in the expansion exactly when some pattern matches it |
| Selection.ExpandAppend | lib/jshint/lint.rb:74 | expansion keeps each pattern's matches together, in pattern order |
| Selection.NonEmptyFiles | lib/jshint/lint.rb:33 | `delete_if { File.size(f) == 0 }` as a value; its members, order, distribution and idempotence are the four rows below |
| Selection.NonEmptyFilesMembers | lib/jshint/lint.rb:33 | a file stays exactly when it was listed and its size is not zero |
| Selection.NonEmptyFilesOrdered | lib/jshint/lint.rb:33 | the remaining files keep their order: the result is a subsequence of the input |
| Selection.NonEmptyFilesAppend | lib/jshint/lint.rb:33 | the filter acts file by file: it distributes over concatenation |
| Selection.NonEmptyFilesIdempotent | lib/jshint/lint.rb:33 | dropping empty files twice drops nothing more |
| Selection.DeleteEmptyFiles | lib/jshint/lint.rb:33 | the `delete_if` loop computes exactly the non-empty files, in order |
| Lint.DeleteKeys | lib/jshint/lint.rb:35 | the `each { delete }` loop deletes exactly the listed keys |
| Lint.CustomConfigPath | lib/jshint/lint.rb:23 | `options[:config_path] || JSHint.config_path`: the option when truthy, else the global path |
| Lint.SelectedFiles | lib/jshint/lint.rb:30-33 | the included files less the excluded ones, with the empty files dropped; the constructor is proved to leave exactly this in `fileList` |
| Lint.Lint.constructor | lib/jshint/lint.rb:21-36 | `@config` is the resolved config, `@file_list` the included files less the excluded ones less the empty ones, the Java flag is unset, nothing has been launched, and the config has unique keys and no selection keys |
| Lint.CheckJavaSpec | lib/jshint/lint.rb:60-69 | probes only while the flag is unset; passes exactly when the flag was set or the stripped output is `OK`; a pass sets the flag; a failure raises NoJavaException |
| Lint.ProbeAcceptsExactly | lib/jshint/lint.rb:62-63 | a probe passes exactly on output that is `OK` with whitespace around it |
| Text.StripSplits | lib/jshint/lint.rb:63 | `strip` removes only whitespace, from both ends |
| Text.StripSurrounded | lib/jshint/lint.rb:63 | `strip` gives back a trimmed text from between any whitespace |
| Lint.Lint.CheckJava | lib/jshint/lint.rb:60-69 | the method's result, flag and launches are those of CheckJavaSpec |
| Lint.RunSpec | lib/jshint/lint.rb:38-44 | a failed Java check raises NoJavaException with only the probe launched; the engine is launched exactly when the check passes and every value converts; an unconvertible value raises ArgumentError; after a launch, LintCheckFailure is raised exactly when the engine fails; no probe runs once the flag is set |
| Lint.ProbeRemembered | lib/jshint/lint.rb:61-64 | after a run gets past the Java check, a later run never probes |
| Lint.ProbeRetried | lib/jshint/lint.rb:61-66 | a run whose check fails leaves the flag unset, so the run after it, started from the flag it left, probes again |
| Lint.EngineCommand | lib/jshint/lint.rb:41-53 | the engine's command line: `java -cp`, the Rhino jar and class, the script, the option token and the files joined by spaces; EngineGetsOptions states what the token carries |
| Lint.EngineGetsOptions | lib/jshint/lint.rb:41-42 | the engine's command carries the option token, and undoing the token's `$` escapes and then its Ruby quoting gives option_string back |
| Lint.Lint.Run | lib/jshint/lint.rb:38-44 | the method's result, flag and launches are those of RunSpec, and the configuration invariant is untouched |
| Json.ToJson | lib/jshint/lint.rb:78-91 | conversion succeeds exactly on values holding no unsupported class, and a failure names a class that occurs in the value |
| Json.EncodeEntries | lib/jshint/lint.rb:81 | the hash body converts exactly when every value does, and a failure names a class found in some value |
| Json.EncodeItems | lib/jshint/lint.rb:83 | the array body converts exactly when every element does, and a failure names a class found in some element |
| Json.ReadToJson | lib/jshint/lint.rb:78-91 | the output of to_json is read back to the same value, leaving the text that follows it |
| Json.DecodeToJson | lib/jshint/lint.rb:78-91 | decoding the output of to_json gives back the value, for values whose keys hold no `"` |
| Json.ToJsonAsWritten | lib/jshint/lint.rb:78-91 | `to_json` exactly as written, with the array branch converting the whole array again for each element and a bound on the stack depth; the three AsWritten rows state how it behaves |
| Json.AsWrittenOverflows | lib/jshint/lint.rb:83 | the array branch as written never returns on a non-empty array, whatever the stack depth |
| Json.AsWrittenOneElement | lib/jshint/lint.rb:83 | `["a"]` overflows as written, while the corrected conversion gives `["a"]` |
| Json.AsWrittenAgrees | lib/jshint/lint.rb:78-91 | on values without non-empty arrays, and with enough stack, the as-written and corrected conversions agree, errors included |
| Json.OptionString | lib/jshint/lint.rb:56-58 | option_string succeeds exactly when every config value converts, and a failure names a class found in some value |
| Json.OptionStringJoins | lib/jshint/lint.rb:57 | option_string is the `&`-join of each entry's `key=value`, in config order |
| Json.OptionStringExample | lib/jshint/lint.rb:57 | `{"strict" => true, "indent" => 4}` gives `strict=true&indent=4` |
| Json.OptionToken | lib/jshint/lint.rb:41 | the token exists exactly when option_string does, and every `$` in it is escaped by a backslash |
| Json.TokenCarriesOptions | lib/jshint/lint.rb:41 | undoing the `$` escapes and the quoting of the token gives option_string back |
| Text.EscapeDollars | lib/jshint/lint.rb:41 | every `$` in the result is preceded by a backslash |
| Text.UnescapeEscapeDollars | lib/jshint/lint.rb:41 | the `$` escaping is undone by dropping the inserted backslashes |
| Text.Inspect | lib/jshint/lint.rb:85 | `inspect` wraps the text in double quotes |
| Text.InspectReads | lib/jshint/lint.rb:85 | a reader of Ruby's quoted-string syntax recovers the string from its `inspect` text, leaving what follows |
| Text.ParseDecimalText | lib/jshint/lint.rb:85 | `Integer#inspect` is read back to the same integer |
| Text.NatTextValue | lib/jshint/lint.rb:85 | the digits of a non-negative integer denote that integer |

## Left out

- Launching Java (lib/jshint/lint.rb:48-54) is left out. Each call is recorded as its command line in `events`, and its outcome (output text, exit status) is a parameter.
- Lint.Lint.Run: the exit status is a boolean, and `system` returning nil (the command could not be started) is folded into false, which the source also treats as failure.
- `Utils.load_config_file`, `Utils.unique_files`, `Utils.exclude_files` and `Utils.xputs` are not part of this model. The first three are parameters. Each `xputs` is recorded as an event.
- `DEFAULT_CONFIG_FILE`, `JSHint.config_path` and the paths built from `PATH` (lib/jshint/lint.rb:6-13) depend on where the code is installed, so they are parameters (`Installation` and the constructor's arguments).
- `Dir[]` and `File.size` are parameters: file contents and globbing rules are not modelled.
- Lint.Lint.constructor: requires every selected pattern to be a string. Ruby's `Dir[]` raising TypeError on other values is not modelled.
- Lint.Lint.constructor: requires both loaded configs to have unique keys. This holds for every Ruby Hash, and the association-list representation needs it as an invariant.
- Text.Inspect: writes each character outside ASCII as it is. Ruby's escaping of unprintable non-ASCII characters depends on the string's encoding, which is not modelled.
- Text.Strip: treats NUL as whitespace at both ends, as Ruby's documentation defines it. Ruby versions that strip NUL only at the end are not modelled.
- Json.ToJson: treats every integer as a Fixnum. On Ruby before 2.4, an integer wider than a machine word is a Bignum, which to_json rejects. On Ruby 3.2 and later, `Fixnum` is gone and line 84 raises NameError; those versions are not modelled.
- Floats, symbols, dates and any other class are VOther, carrying a class name and a `to_s` text. Their formatting is not modelled.
- Config.InspectValue: uses the `"k"=>v` Hash layout of Ruby before 3.4. It only matters for a Hash nested inside `predef`.
- The texts of the exception messages are not modelled, only which exception is raised (with the class name for ArgumentError).
- What `/bin/sh` does with the engine's command line is not modelled. `system` (lib/jshint/lint.rb:53) hands it to the shell because the token contains `"`. The command is modelled as the string the source builds. Three effects of the shell are therefore not captured:
  - word splitting, for example of a file name that contains a space;
  - the shell's own unquoting inside double quotes, which also drops the backslash before `"`, `\`, `` ` `` and newline, so that different option strings (a newline, and a backslash followed by `n`) can reach the engine as the same text;
  - command substitution: `inspect` leaves `` ` `` as it is and only `$` is escaped, so a backtick inside a config value is run by the shell.
- Lint.EngineGetsOptions: states that `UnescapeDollars` and then Ruby's string-literal reading undo the token. This is not what the shell does to the token, so the lemma does not promise what the engine receives.
- Lint.CheckJavaSpec: the probe's result is its output text. The probe command has no shell metacharacters, so Ruby runs `java` directly (lib/jshint/lint.rb:49). When `java` is not on the PATH, that call raises `Errno::ENOENT` before any output exists, and `check_java` never reaches NoJavaException. This error path is not modelled.
- Selection.NonEmptyFiles: `size` is a total function. `File.size` (lib/jshint/lint.rb:33) raises `Errno::ENOENT` for a listed path that no longer exists, for example a dangling symbolic link that `Dir[]` lists. This error path is not modelled.

## Findings

| source | as written | input that shows it | evidently intended | confidence | as-written member | corrected member |
|---|---|---|---|---|---|---|
| lib/jshint/lint.rb:83 | the array branch maps every element to `to_json(obj)`, the whole array again | any non-empty array, e.g. `["a"]` under any config key | `to_json(val)` for each element, giving `["a"]` | not executed | Json.AsWrittenOverflows | Json.ToJson |
