# create-app, modelled in Dafny

`index.ts` is a project scaffolder derived from Vite's `create-vite`. It asks for a project
directory, or takes it from the command line. When the directory is not a valid npm name it
also asks for a package name. It then asks for a framework and one of that framework's
variants. Finally it copies the chosen `templates/template-<id>` directory into the project
directory, renames `_gitignore` to `.gitignore`, and writes `package.json` with its `name`
set to the package name.

This project models the pure core of that program:

- **Package-name rules** (`text.dfy`, `package_name.dfy`, `name_examples.dfy`):
  - `isValidPackageName` is written out as a predicate. It is proved equal to the language of
    its regular expression.
  - `toValidPackageName` is modelled as its five string stages: trim, lower-case, whitespace
    runs to `-`, drop one leading `.`/`_`, invalid runs to `-`.
- **Project directory** (`target_dir.dfy`): `formatTargetDir`.
- **Question chain** (`catalog.dfy`, `questions.dfy`): the four prompts form a state machine
  driven by the sequence of user replies, including refusals and cancellation.
- **Resolution** (`resolve.dfy`): the package name and template id that `init` settles on,
  either from the command line or from the answers.
- **Instantiation** (`tree.dfy`, `rename.dfy`, `descriptor.dfy`, `scaffold.dfy`):
  - `copy`/`copyDir` on an immutable directory tree;
  - the `write` dispatch with the rename table;
  - the loop over the template listing;
  - the `package.json` name patch.

I/O is replaced by inputs:

- the prompts become a list of replies;
- the file system becomes a tree;
- `readdirSync`'s order becomes an explicit listing;
- JSON parsing and serialisation become the function parameters `parse` and `render`.

Facts about the code that the model makes explicit:

- An input with no valid character, such as `!!`, normalises to `-`, which
  `isValidPackageName` accepts (`NameExamples.PunctuationGivesDash`).
- Normalisation is idempotent on every input (`PackageName.NormaliseIdempotent`).
- A valid name is not always left unchanged by normalisation: `x.y` becomes `x-y`
  (`NameExamples.ValidNameNotFixed`).
- When the directory is given on the command line, the questions are skipped. The package
  name can then be empty: `.` normalises to the empty name
  (`Resolve.DotDirectoryGivesEmptyName`, `Resolve.CommandLineResolution`). The template is
  then only the `--template` flag, and without it the template directory looked up is
  `template-undefined` (`Scaffold.UnknownTemplateFails`).
- `trim` and `\s` use ECMAScript's full whitespace set (WhiteSpace and LineTerminator), not
  ASCII whitespace alone.

## Model

| member | source | states |
|---|---|---|
| Text.TrimSpec | index.ts:222 | `trim` removes exactly the leading and trailing whitespace. The result is the middle of the input, character for character, and starts and ends with non-whitespace. |
| Text.TrimEndSpec | index.ts:222 | Trimming the end leaves a prefix, after which the input holds only whitespace, and the prefix does not end in whitespace. |
| Text.TrimIdempotent | index.ts:222 | Trimming twice is trimming once. |
| Text.TrimOfTrimmed | index.ts:222 | A string with non-whitespace ends is its own trim. |
| Text.DropWhileSpec | index.ts:224-226 | The longest run of class characters at the head is removed, and nothing else. |
| Text.LowerCharSpec | index.ts:223 | `toLowerCase` of one character: it changes only cased characters and turns them into a small letter (plus non-name marks). Whitespace, `.` and `_` are kept. |
| Text.ToLowerShape | index.ts:223 | Lower-casing never shortens a string, and it begins with the lower case of the first character. |
| Text.ToLowerUncased | index.ts:223 | A string without cased characters is its own lower case. |
| Text.ToLowerAppend | index.ts:223 | Lower-casing distributes over concatenation. |
| Text.ReplaceRunsHead | index.ts:224 | A run replacement is empty only for the empty string. Its first character is `-` or the input's first character. |
| Text.ReplaceRunsAlphabet | index.ts:226 | After replacing runs of a class, the only class characters left are the written dashes. |
| Text.ReplaceRunsKeeps | index.ts:224-226 | A string with no character of the class is left unchanged. |
| Text.ReplaceRunsKeepsPrefix | index.ts:224-226 | A prefix without class characters passes through unchanged. |
| Text.RunCollapses | index.ts:224-226 | A whole maximal run of class characters, of any length, becomes one `-` (so `a  b` gives `a-b`), and the text after the run is replaced as if on its own. |
| PackageName.ToValidPackageName | index.ts:220-227 | Every character of the normalised name is in `[a-z0-9-~]`. |
| PackageName.ValidIffMatchesPattern | index.ts:214-218 | The hand-written check accepts exactly the strings of the pattern: a main segment, optionally preceded by `@`, a scope and `/`. |
| PackageName.ScopeEndsAtFirstSlash | index.ts:215 | The `/` after a scope is the first `/` of the name. |
| PackageName.ValidNameShape | index.ts:214-218 | A valid name is non-empty and does not start with `.` or `_`. It has no capitals and no whitespace. It has at most one `/`, and only after a leading `@`. Any `*` comes before that `/`. |
| PackageName.NameCharsAreFixed | index.ts:220-227 | Normalisation is the identity on strings drawn from `[a-z0-9-~]`. |
| PackageName.NormaliseIdempotent | index.ts:220-227 | Normalising twice is normalising once, for every input. |
| PackageName.NormalisedIsValid | index.ts:214-227 | A non-empty normalised name is valid. |
| PackageName.NormalisedEmptyIff | index.ts:220-227 | The normalised name is empty exactly when the trimmed input is empty, `.` or `_`. |
| NameExamples.ValidNameNotFixed | index.ts:214-227 | `x.y` is valid, yet normalises to `x-y`. |
| NameExamples.DotBecomesDash | index.ts:226 | The final stage replaces an inner `.` by `-`. |
| NameExamples.NameCharsWithoutSpaces | index.ts:221-224 | The first three stages leave alone a string with no whitespace and no cased characters. |
| NameExamples.WordsNormalise | index.ts:220-227 | `u v!!`-shaped input normalises to `u-v-`, which is valid. |
| NameExamples.WordsCollapse | index.ts:221-224 | On `u v!!`-shaped input, the first three stages only turn the space into `-`. |
| NameExamples.SpaceBecomesDash | index.ts:224 | A single space between runs of non-space characters becomes one `-`. |
| NameExamples.LoneSpaceBecomesDash | index.ts:224 | A space followed by a non-space becomes one `-`. |
| NameExamples.PunctuationBecomesDash | index.ts:226 | A trailing run of punctuation becomes one `-`. |
| NameExamples.PunctuationGivesDash | index.ts:214-227 | A name made only of punctuation, not starting with `.` or `_`, normalises to `-`, and `-` is a valid name. |
| NameExamples.SameAfterLowering | index.ts:220-227 | Normalisation depends on its input only through the trimmed lower case. |
| TargetDir.StripTrailingSlashesSpec | index.ts:193 | Removing the trailing slashes leaves a prefix, followed in the input only by `/`, that does not end in `/`. |
| TargetDir.FormatTargetDirSpec | index.ts:192-194 | The formatted directory is a prefix of the trimmed input, followed in it only by `/`. It never ends in `/` and never starts with whitespace. |
| TargetDir.FormatNotIdempotent | index.ts:192-194 | `x/ /` formats to `x/ `, which formats to `x`. |
| Catalog.CatalogNamesAreTemplates | index.ts:27-44 | Every framework and variant name in the catalogue is one of `node`, `node-ts`, `react`, `react-ts`. |
| Questions.StepKeepsInv | index.ts:70-104 | Each reply keeps the session invariant: the answers recorded so far fit the question being asked. |
| Questions.RunFromKeepsInv | index.ts:70-104 | Any sequence of replies keeps the invariant. |
| Questions.FinishedSession | index.ts:79-102 | A finished session has a package-name answer exactly when the directory is invalid, and that answer is valid. The framework is catalogued, and the variant is one the framework offers and a known template id. |
| Questions.RefusedNamesKeepAsking | index.ts:79-83 | However many refused package names are typed, the question stays open and nothing is recorded. |
| Questions.RecordedNameIsValid | index.ts:79-83 | No sequence of replies records an invalid package name, and a name is recorded only when the directory is not a valid one. |
| Questions.AbortIsFinal | index.ts:124-128 | Cancelling at any open question ends the session. |
| Questions.CancelledStays | index.ts:124-132 | No reply revives a cancelled session. |
| Resolve.Or | index.ts:137 | `x \|\| y` on optional strings is truthy when either is. It is `x` when `x` is truthy and `y` otherwise. |
| Resolve.TemplateIsFirstNonEmpty | index.ts:139 | The template id is the first non-empty one of variant, framework name and flag. When none is non-empty it is the flag as given, absent or empty. |
| Resolve.NormalisedValidIsValid | index.ts:136-137 | Normalising a valid name gives a non-empty valid name. |
| Resolve.InteractiveResolution | index.ts:122-139 | On the interactive path the package name is valid and the template id is catalogued. |
| Resolve.CommandLineResolution | index.ts:122-139 | A directory argument skips the questions: the replies play no part, the directory is kept as given and the template is the flag. The package name is valid unless empty, and it is empty exactly when the trimmed argument is empty, `.` or `_`. |
| Resolve.DotDirectoryGivesEmptyName | index.ts:136-137 | The argument `.` resolves to the empty package name. |
| Tree.CopyLookup | index.ts:196-212 | After a successful copy, each path shows the source where the source has something, and the old destination elsewhere. |
| Tree.CopyOverlays | index.ts:196-212 | The overlay holds for all paths at once. |
| Tree.CopyNoConflictAt | index.ts:196-212 | A successful copy meets no path with a file on one side and a directory on the other. |
| Tree.CopyFailureWitness | index.ts:196-212 | A failed copy has such a path, and the lemma returns it. |
| Tree.CopySucceedsIffNoClash | index.ts:196-212 | The copy succeeds exactly when no file meets a directory. |
| Tree.CopyIntoNothing | index.ts:205-212 | Copying to a missing path reproduces the source exactly. |
| Rename.TargetMovesOnlyGitignore | index.ts:52-54 | Only `_gitignore` changes its name. `.gitignore` is produced by it and by `.gitignore` itself. |
| Rename.TargetInjective | index.ts:52-54 | Two different entries share a written name only when they are `_gitignore` and `.gitignore`. |
| Rename.AsWrittenAgreesOffPrototype | index.ts:158 | The lookup as written fails exactly on names inherited from `Object.prototype`, and agrees with the rename table elsewhere. |
| Rename.ConstructorIsRefused | index.ts:158 | A template entry named `constructor` is refused by the lookup as written, though it should keep its name. |
| Descriptor.SetNameSpec | index.ts:175 | Setting `name` fails exactly on JSON primitives and leaves an array unchanged. On an object it adds or overwrites `name` and keeps every other property. |
| Descriptor.NameReadsBack | index.ts:175 | The patched object's `name` is the package name. |
| Descriptor.SetNameIdempotent | index.ts:175 | Patching twice with one name is patching once. |
| Descriptor.SetNameKeepsNamed | index.ts:175 | A descriptor that already carries the name is unchanged. |
| Scaffold.WriteAllSucceedsIff | index.ts:157-169 | The loop succeeds exactly when every entry other than `package.json` copies over what its written name holds. A failure is a file/directory conflict. |
| Scaffold.WriteAllMirrors | index.ts:157-169 | After the loop, every entry other than `package.json` holds its copy under its renamed name. Names not written keep their old contents, and no other name appears. |
| Scaffold.AsWrittenLoopAgrees | index.ts:157-169 | With the rename lookup as written, the loop gives the same result as the corrected loop on every listing without an entry named like an `Object.prototype` property. |
| Scaffold.AsWrittenLoopRefuses | index.ts:157-169 | With the rename lookup as written, the loop always fails on a listing holding an entry named like an `Object.prototype` property, such as `constructor`. |
| Scaffold.WriteAllOnFile | index.ts:143-169 | When the project path is a file, the loop fails or writes nothing. |
| Scaffold.FreshLoopSucceeds | index.ts:143-169 | Into a fresh directory the loop succeeds, and it does not write `package.json`. |
| Scaffold.CreatedProject | index.ts:141-177 | In a created project, every template entry appears under its renamed name. `package.json` holds the patched descriptor. Old entries not produced by the template are untouched, and nothing else is added. |
| Scaffold.FreshProjectMirrorsTemplate | index.ts:141-177 | A project created where nothing existed holds every template entry exactly, under its renamed name, plus `package.json`. |
| Scaffold.FreshProjectSucceeds | index.ts:141-177 | A project is always created in a fresh place when the template exists, has no rename clash and has a `package.json` file that parses to an object. |
| Scaffold.UnknownTemplateFails | index.ts:151-166 | With a directory argument and no `--template`, the lookup is for `template-undefined`. If that is missing, the run fails after creating the project directory, before any template entry is copied. |
| Scaffold.CancelledScaffold | index.ts:122-132 | Cancelling the questions produces no project. |
| Scaffold.InteractiveProjectName | index.ts:135-177 | A project created interactively has a valid package name, and it comes from an existing catalogued template. |

## Left out

- Terminal I/O: the `prompts` widget, `commander` parsing, `chalk`/`gradient-string`, every `console.log` (including the `cd`/`npm install` hints) and the `setTimeout` delay. The replies, the directory argument and the `--template` flag are inputs instead. Unknown options, `--version` and `--help` are not modelled.
- Paths: `path.join`, `path.resolve`, `fileURLToPath` and the working directory. The project directory is one entry, `existing`, which says what the project path held before. The templates directory is a map from directory names to trees.
- Permissions, symlinks and I/O errors other than a file meeting a directory.
- The contents of the tree after a failure. Only the failure kind is returned, although `mkdirSync` of the project directory and earlier writes have already happened.
- Directory-listing order: it is an explicit `listing` input to the top-level loop. Inside `copyDir` the order cannot matter, since names in one directory are distinct.
- JSON text: parsing and `JSON.stringify(pkg, null, 2)` are the parameters `parse` and `render`. Objects are maps, so key order and duplicate keys are not modelled.
- Descriptor.SetName: a JSON array is modelled as unchanged by the patch, because serialisation drops the non-index `name` property it receives.
- Text.LowerChar: models `toLowerCase` only for ASCII capitals, KELVIN SIGN and LATIN CAPITAL LETTER I WITH DOT ABOVE. Every other character is kept as it is. Its real lower case, like itself, is outside `[a-z0-9-~]`, so the normalised name does not depend on it.
- Questions.Step: the `onState` callback that rewrites the directory on every keystroke is folded into the submitted reply. Only the last state matters for the answers.
- Questions.Step: a select reply out of range is treated as refused. The widget cannot produce one.
- Scaffold.WriteFile: uses the corrected rename table `Rename.Target`. As written, `write` also throws on a top-level entry named like an `Object.prototype` property (see Findings); `Scaffold.WriteFileAsWritten` models that, and `Scaffold.AsWrittenLoopAgrees` shows the two agree on every other listing.
- Scaffold.WriteAllSucceedsIff: states the success condition of the corrected loop. As written, the loop also fails on a top-level entry named like an `Object.prototype` property (`Scaffold.AsWrittenLoopRefuses`).
- Scaffold.FreshLoopSucceeds: holds for the corrected loop. As written, a template with a top-level entry named like an `Object.prototype` property fails instead (`Scaffold.AsWrittenLoopRefuses`).
- Scaffold.FreshProjectSucceeds: holds for the corrected rename table. As written, a template with a top-level entry named like an `Object.prototype` property fails instead (`Scaffold.AsWrittenLoopRefuses`).
- The top-level `catch` that prints errors and the process exit code.

## Findings

| source | as written | input that shows it | evidently intended | confidence | as-written member | corrected member |
|---|---|---|---|---|---|---|
| index.ts:158 | `renameFiles[file] ?? file` reads a plain object literal, so the lookup also finds `Object.prototype`'s members. `path.join` then receives a function or object and throws. | a template whose top level has an entry named `constructor` (or `toString`, `valueOf`, `__proto__`, …) | only the table's own entry renames; every other name is kept | not executed; high | Rename.TargetAsWritten (Rename.ConstructorIsRefused, Rename.AsWrittenAgreesOffPrototype), Scaffold.WriteAllAsWritten (Scaffold.AsWrittenLoopRefuses) | Rename.Target (Rename.TargetMovesOnlyGitignore, used by Scaffold.WriteFile and Scaffold.WriteAll) |
