# susee bundling core in Dafny

susee packages a TypeScript library for distribution. It starts from each
entry file's local dependency files, listed dependencies first, and rewrites
them into one module:

- top-level names declared in more than one file are renamed;
- anonymous default exports get names, and the files that import them use
  those names;
- import declarations are removed and the external ones are hoisted and
  merged;
- export syntax is removed from every file except the entry.

The result is concatenated and handed to the TypeScript compiler once per
output format (CommonJS, ESM). The package manifest is then rewritten to
point at the emitted files.

This project models that pipeline on a syntax tree (`Ast`, with a generic
`visitEachChild`-order walk in `Walk`) and proves what each stage promises:

| module | source it models |
|---|---|
| `Records`, `Paths`, `UniqueNames` | the rename records, the `path` helpers the visitors use, and the generated names |
| `BundleCreator` | `bundleCreator`, the per-file transform runner (parse, transform, print) |
| `DuplicateCollect`, `DuplicateUpdate`, `DuplicateRefs`, `DuplicatePlan`, `DuplicateImports` | duplicate detection and the renaming passes (`duplicateCollection`, `duplicateUpdate`, the call/export/import reference visitors, `duplicatesNew`, `duplicate`) |
| `Anonymous` | naming anonymous default exports and re-binding the imports of them |
| `Utils`, `ImportsAll`, `RemoveExports`, `CommonJsExports`, `RemoveImports` | module-type detection, import collection and the stripping of imports and exports |
| `ImportRegex`, `MergeImports` | the hoisted-import merger: its three regular expressions and the merge itself |
| `Bundler`, `BundlerFacts` | `bundle` in `src/lib/bundle/index.ts`: the stages in order, the external-import filter, the assembly, and properties of the whole run |
| `LegacyBundle` | the older single-pass bundler in `src/bundle.ts` |
| `UnusedCode` | `clearUnusedCode` |
| `CheckExports`, `ReplaceCjs` | the export inspection and the `exports.default` / `export default` rewrites used by the compilers |
| `Helpers`, `InitChecks`, `Config`, `TargetConfig`, `CompilerOptions` | name formatting, the pre-build checks, both configuration loaders and the compiler options per target |
| `JsObject`, `PackageJson`, `Package`, `CompilePackage` | the manifest `exports` map and both manifest writers |

Where the source walks a file and updates state as it goes, a class or a
method with a loop is proved equal to a pure specification function. The
properties are then proved about that function. Examples are that renaming
is idempotent, or that a visitor that matches nothing leaves the file alone.

Where the behaviour of the code differs from what its names and comments
intend, the model keeps the code as written and proves the difference. It
also defines the intended behaviour and proves that instead. The end-to-end
members (the stages run in order, the bundle of an entry point) compose the
intended behaviour: every difference is listed under "Findings", and every
member that relies on one is named under "Left out" with what the code as
written does instead.

## Model

| member | source | states |
|---|---|---|
| `Records.FindBaseFile` | src/lib/bundle/visitors/duplicateCallExpression.ts:17-22 | the first rename record whose base and file both match, and none exactly when no record matches |
| `Records.FindFile` | src/lib/bundle/visitors/anonymousImport.ts:20-22 | a record of the given file, and none exactly when no record is for that file |
| `Records.FindFileFirst` | src/lib/bundle/visitors/anonymousImport.ts:20-22 | the record found is the first one in the list for that file, as `Array.prototype.find` returns |
| `Records.FindBaseFileAppend` | src/lib/bundle/visitors/duplicateCallExpression.ts:17-22 | records added later for other names or files do not change which record a lookup finds when one matches |
| `Records.FindBaseFileAppendMiss` | src/lib/bundle/visitors/duplicateCallExpression.ts:17-22 | a lookup that finds nothing still finds nothing after records for other names or files are added |
| `Paths.ParseFormat` | src/lib/bundle/visitors/visitorHelpers.ts:4-11 | reading back a written path gives the same root flag and segments |
| `Paths.NormalizeIdempotent` | src/lib/bundle/visitors/visitorHelpers.ts:10 | `path.normalize` leaves no "." segment, no ".." after a name, none at all under the root, and a second normalization changes nothing |
| `Paths.Ext` | src/lib/bundle/visitors/visitorHelpers.ts:5 | the extension `path.parse` reports is empty or a dot-led suffix of the base name, shorter than it |
| `Paths.RelativeResolves` | src/lib/bundle/index.ts:212 | resolving `path.relative(from, to)` against `from` gives back `to` |
| `Paths.ModuleKey` | src/lib/bundle/visitors/visitorHelpers.ts:15-31 | a specifier that starts with neither "." nor "/" (a package name) is its own key |
| `Paths.KeyOfKeyed` | src/lib/bundle/visitors/visitorHelpers.ts:4-11 | a normal path whose last segment has no extension and is not `index` is its own key |
| `Paths.ModuleKeyOfSibling` | src/lib/bundle/visitors/visitorHelpers.ts:15-31 | `import … from "./n"` in a file of a directory has the key of the file `n.ts` in that directory |
| `Paths.FileKeyOfSibling` | src/lib/bundle/visitors/visitorHelpers.ts:4-13 | the key of `<dir>/n.ts` is `<dir>/n` |
| `Paths.FileKeyOfIndex` | src/lib/bundle/visitors/visitorHelpers.ts:4-13 | the key of `<dir>/n/index.ts` is `<dir>/n`: an index file stands for its directory |
| `Paths.ModuleKeyOfIndex` | src/lib/bundle/visitors/visitorHelpers.ts:15-31 | `import … from "./n"` also has the key of `<dir>/n/index.ts` |
| `Paths.ResolveDotSlash` | src/lib/bundle/visitors/visitorHelpers.ts:26-28 | resolving "./n" from a directory gives that directory's child `n` |
| `Paths.DirnameOfChild` | src/lib/bundle/visitors/visitorHelpers.ts:27 | `path.dirname` of a child path is its parent directory |
| `UniqueNames.CounterSuffix` | src/lib/bundle/uniqueName.ts:23-25 | a generated name ends in "_" and its counter, whatever the prefix and input |
| `UniqueNames.CounterNamesDistinct` | src/lib/bundle/uniqueName.ts:23-25 | names generated with different counters differ |
| `UniqueNames.AfterGetNameAdvances` | src/lib/bundle/uniqueName.ts:20-28 | `getName` keeps the key's prefix, adds one to the key's counter and leaves every other key's counter alone |
| `UniqueNames.NamesFrom` | src/lib/bundle/uniqueName.ts:20-28 | successive `getName` calls under one key number their names count+1, count+2, … |
| `UniqueNames.NamesFromDistinct` | src/lib/bundle/uniqueName.ts:20-28 | successive `getName` calls under one key never return the same name |
| `UniqueNames.KeyedNames.constructor` | src/lib/bundle/uniqueName.ts:8-9 | a new generator has no key stored |
| `UniqueNames.KeyedNames.SetPrefix` | src/lib/bundle/uniqueName.ts:12-19 | a key already stored is refused with "<key> already exist" and nothing changes; a new key is stored with its prefix and counter 0 |
| `UniqueNames.KeyedNames.GetName` | src/lib/bundle/uniqueName.ts:20-28 | the name is prefix (or "$nyein" when none), input, "_", counter+1; the key's counter advances and an unknown key gets "$nyein" |
| `UniqueNames.KeyedNames.GetPrefix` | src/lib/bundle/uniqueName.ts:29-32 | the stored prefix of a known key, undefined for an unknown one |
| `UniqueNames.PrefixedNames.constructor` | src/lib/bundle/visitors/visitorHelpers.ts:38-47 | a new name source under a prefix has issued no names |
| `UniqueNames.PrefixedNames.GetName` | src/lib/bundle/visitors/visitorHelpers.ts:48-55 | the name is prefix (or "$nyein" for an empty one), input, "_", the number of names issued plus one; it is appended to the issued names, which stay pairwise distinct |
| `UniqueNames.ValidNamesDistinct` | src/lib/bundle/visitors/visitorHelpers.ts:48-55 | names numbered by their position are pairwise distinct |
| `UniqueNames.PrefixRegistry.constructor` | src/lib/bundle/visitors/visitorHelpers.ts:33-34 | a new registry holds no prefix |
| `UniqueNames.PrefixRegistry.SetPrefix` | src/lib/bundle/visitors/visitorHelpers.ts:37-57 | a key already registered fails with "<key> already exist"; a new one is registered and a fresh name source with that prefix and no names is returned |
| `UniqueNames.PrefixRegistry.GetPrefix` | src/lib/bundle/visitors/visitorHelpers.ts:58-62 | the registered prefix of a known key, undefined otherwise |
| `UniqueNames.NextPerBase` | src/lib/bundle/duplicatesNew.ts:75-82 | the base's counter goes up by one (from 0 when unseen) and the name ends in "_" and the new count |
| `UniqueNames.NextPerBaseFresh` | src/lib/bundle/duplicatesNew.ts:75-82 | two successive names for the same base differ |
| `BundleCreator.Created` | src/lib/bundle/bundleCreator.ts:10-25 | the stage's record keeps the file path and every other field, and its content is the transformed statements without the empty statements the `;`-line cleanup removes |
| `BundleCreator.MatchAt` | src/lib/bundle/bundleCreator.ts:22 | a match of `/^s*;\s*$/m` starts at a line start and ends at the end of the text or at a line terminator |
| `BundleCreator.StripWithoutSemicolon` | src/lib/bundle/bundleCreator.ts:22 | text without a `;` passes the deletion unchanged |
| `BundleCreator.StripShrinks` | src/lib/bundle/bundleCreator.ts:22 | the deletion never lengthens the text |
| `BundleCreator.SemicolonLineDeleted` | src/lib/bundle/bundleCreator.ts:22 | a line holding only `;` is deleted and its line break kept |
| `BundleCreator.IndentedSemicolonKept` | src/lib/bundle/bundleCreator.ts:22 | the pattern starts with a literal `s`, not `\s`: an indented `;` line is kept |
| `BundleCreator.LetterSLineDeleted` | src/lib/bundle/bundleCreator.ts:22 | a line of letters `s` followed by `;` is deleted |
| `DuplicateCollect.Names` | src/lib/bundle/visitors/duplicateCollection.ts:25-30 | the keys of `namesMap` in insertion order |
| `DuplicateCollect.Files` | src/lib/bundle/visitors/duplicateCollection.ts:25-30 | a name never recorded has an empty set |
| `DuplicateCollect.Record` | src/lib/bundle/visitors/duplicateCollection.ts:25-30 | recording adds one occurrence of the file to that name's set and changes no other name's set |
| `DuplicateCollect.RecordNames` | src/lib/bundle/visitors/duplicateCollection.ts:25-30 | a new name goes to the end of the iteration order; a known one keeps its place |
| `DuplicateCollect.RecordKeysDistinct` | src/lib/bundle/visitors/duplicateCollection.ts:25-30 | keys stay distinct, as in a `Map` |
| `DuplicateCollect.RecordAllFiles` | src/lib/bundle/visitors/duplicateCollection.ts:22-49 | recording a file's names adds to each name's set one entry for the file per occurrence of the name |
| `DuplicateCollect.DeclaredVars` | src/lib/bundle/visitors/duplicateCollection.ts:22-24 | exactly the identifier-named declarators of a variable statement; binding patterns are skipped |
| `DuplicateCollect.WalkStmts` | src/lib/bundle/visitors/duplicateCollection.ts:17-81 | nothing is recorded out of global scope |
| `DuplicateCollect.WalkStmt` | src/lib/bundle/visitors/duplicateCollection.ts:19-78 | in global scope a statement records its own declaration, and a namespace the declarations of its body; out of global scope nothing |
| `DuplicateCollect.WalkChildren` | src/lib/bundle/visitors/duplicateCollection.ts:55-78 | only namespace bodies are walked in global scope; children of blocks, functions and classes record nothing |
| `DuplicateCollect.WalkDecls` | src/lib/bundle/visitors/duplicateCollection.ts:72-77 | initializers of declarators record nothing |
| `DuplicateCollect.WalkMembers` | src/lib/bundle/visitors/duplicateCollection.ts:55-70 | class members are visited in local scope and record nothing |
| `DuplicateCollect.WalkExpr` | src/lib/bundle/visitors/duplicateCollection.ts:55-70 | expressions reach statements only through function expressions, arrows and methods, which are local: they record nothing |
| `DuplicateCollect.WalkIsTopLevel` | src/lib/bundle/visitors/duplicateCollection.ts:17-81 | the visitor from global scope records exactly the top-level declarations of the module, namespace bodies included, in order |
| `DuplicateCollect.StopsAfterFirstFunction` | src/lib/bundle/duplicatesNew.ts:27-69 | as written, `collectDuplicates` records a top-level function and nothing declared after it, while the intended walk records both |
| `DuplicateCollect.StopIsPrefix` | src/lib/bundle/duplicatesNew.ts:27-69 | as written, a file contributes a prefix of its top-level declarations, all of them when the walk never stops |
| `DuplicateCollect.CollectKeyedLast` | src/lib/bundle/duplicatesNew.ts:17-72 | with the intended walk, each file adds its key once per top-level declaration of a name |
| `DuplicateCollect.CollectAsWrittenMisses` | src/lib/bundle/duplicatesNew.ts:27-69 | as written, a variable declared after a top-level function is never recorded for its file; the intended collector records it |
| `DuplicateUpdate.Issue` | src/lib/bundle/visitors/duplicateUpdate.ts:31-32 | the next `d_<base>_<k>` name, with the counter advanced and `{base, file, newName}` appended to `callNameMap` |
| `DuplicateUpdate.IssuedRefl` | src/lib/bundle/visitors/duplicateUpdate.ts:24-88 | a visit that issues nothing keeps the log and counter |
| `DuplicateUpdate.IssuedTrans` | src/lib/bundle/visitors/duplicateUpdate.ts:24-88 | successive visits compose: every log entry added is for this file, a duplicated base, and numbered in issue order |
| `DuplicateUpdate.RenameDecls` | src/lib/bundle/visitors/duplicateUpdate.ts:26-43 | declarators keep their type and initializer; a declarator changes exactly when it is an identifier whose name occurs more than once in `namesMap` |
| `DuplicateUpdate.CounterNameLonger` | src/lib/bundle/visitors/duplicateUpdate.ts:11-14 | a generated name never equals its base |
| `DuplicateUpdate.UpdateStmt` | src/lib/bundle/visitors/duplicateUpdate.ts:24-85 | every rename it logs is for this file and a duplicated base, numbered in order |
| `DuplicateUpdate.UpdateKeeps` | src/lib/bundle/visitors/duplicateUpdate.ts:24-88 | the visitor keeps the issue invariant on every kind of node |
| `DuplicateUpdate.UpdateFile` | src/lib/bundle/visitors/duplicateUpdate.ts:16-90 | every rename logged over the whole file is for this file and a duplicated base, numbered in issue order |
| `DuplicateUpdate.UpdateOne` | src/lib/bundle/visitors/duplicateUpdate.ts:24-88 | a one-statement file is visited by the statement branch of the visitor |
| `DuplicateUpdate.VarStmtRenamed` | src/lib/bundle/visitors/duplicateUpdate.ts:25-48 | a variable statement keeps its modifiers, kind and initializers, and exactly its duplicated identifier declarators are renamed |
| `DuplicateUpdate.FuncRenamed` | src/lib/bundle/visitors/duplicateUpdate.ts:49-67 | a named function is renamed iff duplicated, to the next "d_" name, with its body unvisited and one log entry |
| `DuplicateUpdate.ClassRenamed` | src/lib/bundle/visitors/duplicateUpdate.ts:68-84 | a named class is renamed iff duplicated, to the next "d_" name, with its members unvisited |
| `DuplicateUpdate.TypeDeclsKept` | src/lib/bundle/visitors/duplicateUpdate.ts:85-87 | enums and type aliases are never renamed and issue no name |
| `DuplicateUpdate.NestedDeclRenamed` | src/lib/bundle/visitors/duplicateUpdate.ts:87 | an unrenamed function is walked into, and a duplicated variable inside it is renamed too |
| `DuplicateRefs.Redirect` | src/lib/bundle/visitors/duplicateCallExpression.ts:15-29 | the first `callNameMap` entry for the base in this file wins over an `importNameMap` entry; with neither, or an empty new name, nothing is rewritten |
| `DuplicateRefs.RedirectIgnoresOtherFiles` | src/lib/bundle/visitors/duplicateCallExpression.ts:17-22 | entries for other files never change the name chosen |
| `DuplicateRefs.FindIgnoresOtherFiles` | src/lib/bundle/visitors/duplicateCallExpression.ts:17-22 | a lookup is unaffected by entries added for other files |
| `DuplicateRefs.CallHook` | src/lib/bundle/visitors/duplicateCallExpression.ts:13-85 | only calls, property accesses and `new` on an identifier are rewritten; type arguments, arguments and the property name are kept |
| `DuplicateRefs.CallRedirected` | src/lib/bundle/visitors/duplicateCallExpression.ts:13-37 | a call of a redirected name, and the same call in its arguments, are both rewritten |
| `DuplicateRefs.CallKept` | src/lib/bundle/visitors/duplicateCallExpression.ts:86-87 | a call of a name with no redirect is left as it was |
| `DuplicateRefs.CallMapFirst` | src/lib/bundle/visitors/duplicateCallExpression.ts:25-29 | a `callNameMap` hit decides the new name whatever `importNameMap` holds |
| `DuplicateRefs.ExportLookup` | src/lib/bundle/visitors/duplicateExportExpression.ts:21-38 | the chosen name is the call visitor's; a `callNameMap` hit appends `{base, file key, newName}` to `exportNameMap` (or throws when no list was passed), and otherwise nothing is recorded |
| `DuplicateRefs.ExportSpecs` | src/lib/bundle/visitors/duplicateExportExpression.ts:19-47 | each export specifier keeps its property name and takes the redirected name when there is one |
| `DuplicateRefs.ExportSpecsPushed` | src/lib/bundle/visitors/duplicateExportExpression.ts:29-34 | every entry added to `exportNameMap` records a `callNameMap` hit of this file under the file's key |
| `DuplicateRefs.PushedTrans` | src/lib/bundle/visitors/duplicateExportExpression.ts:29-34 | the recording invariant composes over successive nodes |
| `DuplicateRefs.ExportKeeps` | src/lib/bundle/visitors/duplicateExportExpression.ts:18-80 | the visitor keeps the recording invariant on every node |
| `DuplicateRefs.ExportFile` | src/lib/bundle/visitors/duplicateExportExpression.ts:9-82 | over a whole file, only `callNameMap` hits of the file are appended to `exportNameMap` |
| `DuplicateRefs.ExportSpecsIdle` | src/lib/bundle/visitors/duplicateExportExpression.ts:19-47 | with no entries for this file, export specifiers and the list are unchanged |
| `DuplicateRefs.ExportSpecRecorded` | src/lib/bundle/visitors/duplicateExportExpression.ts:19-46 | `export { b }` with a `callNameMap` entry exports the new name and records it under the file's key |
| `DuplicateRefs.ExportDefaultRecorded` | src/lib/bundle/visitors/duplicateExportExpression.ts:48-75 | `export default b` with a `callNameMap` entry exports the new name and records it under the file's key |
| `DuplicateRefs.ExportThrowsWithoutList` | src/lib/bundle/visitors/duplicateExportExpression.ts:29-34 | a `callNameMap` hit with no export list passed throws |
| `DuplicateRefs.ImportElems` | src/lib/bundle/visitors/duplicateImportExpression.ts:74-95 | each named binding keeps its flags and property name and takes the new name of the first `exportNameMap` entry for its trimmed name and module key; entries are only appended |
| `DuplicateRefs.ImportHook` | src/lib/bundle/visitors/duplicateImportExpression.ts:25-114 | the import visitor only appends to `importNameMap` |
| `DuplicateRefs.ImportFile` | src/lib/bundle/visitors/duplicateImportExpression.ts:16-119 | over a whole file `importNameMap` only grows |
| `DuplicateRefs.DefaultImportRebound` | src/lib/bundle/visitors/duplicateImportExpression.ts:41-65 | a matched default binding is renamed, the named bindings are kept unexamined, and one entry under the importing file is recorded |
| `DuplicateRefs.UnmatchedImportKept` | src/lib/bundle/visitors/duplicateImportExpression.ts:25-116 | an import of a module with no `exportNameMap` entry is kept and records nothing |
| `DuplicateRefs.UnmatchedImportHook` | src/lib/bundle/visitors/duplicateImportExpression.ts:25-116 | the visitor leaves such an import as it is or rebuilds it unchanged |
| `DuplicateRefs.ImportElemsIdle` | src/lib/bundle/visitors/duplicateImportExpression.ts:74-95 | named bindings of a module with no entries are unchanged and nothing is recorded |
| `DuplicatePlan.NameGenerator.constructor` | src/lib/bundle/duplicatesNew.ts:75-76 | a new generator has its prefix and no counters |
| `DuplicatePlan.NameGenerator.Next` | src/lib/bundle/duplicatesNew.ts:77-81 | one call advances the base's counter from its old value (0 when unseen) and names the result `<prefix><base>_<count>` |
| `DuplicatePlan.LastIndex` | src/lib/bundle/duplicatesNew.ts:93-96 | the position of the last occurrence of a file key, which a `Map.set` in the loop leaves in force |
| `DuplicatePlan.CreateRenamePlan` | src/lib/bundle/duplicatesNew.ts:87-102 | the plan holds every name declared more than once, mapping each file key to the name drawn at its last occurrence, with the prefix defaulting to "__dup__" |
| `DuplicatePlan.DrawNames` | src/lib/bundle/duplicatesNew.ts:92-97 | the inner map of one name, with the generator's counter for that name advanced by its number of occurrences |
| `DuplicatePlan.NamesSnoc` | src/lib/bundle/duplicatesNew.ts:90 | `forEach` visits a map's keys in insertion order |
| `DuplicatePlan.FilesSnoc` | src/lib/bundle/duplicatesNew.ts:90 | the set of a name is found in the first entry under that name |
| `DuplicatePlan.NameIsNew` | src/lib/bundle/duplicatesNew.ts:90 | in a `Map` each name is visited once |
| `DuplicatePlan.PlanOfSnoc` | src/lib/bundle/duplicatesNew.ts:90-100 | visiting one more name adds its inner map exactly when its set has more than one entry |
| `DuplicatePlan.InnerPlanSnoc` | src/lib/bundle/duplicatesNew.ts:93-96 | one more occurrence sets its file key to the next counter name |
| `DuplicatePlan.PlanDomain` | src/lib/bundle/duplicatesNew.ts:91-98 | exactly the names declared more than once are planned, each under every file key it was declared in |
| `DuplicatePlan.InnerPlanDistinct` | src/lib/bundle/duplicatesNew.ts:93-96 | two file keys of one name get different new names |
| `DuplicatePlan.PlanInjective` | src/lib/bundle/duplicatesNew.ts:87-102 | no two planned (name, file key) pairs share a new name |
| `DuplicatePlan.SameCounterSameInput` | src/lib/bundle/duplicatesNew.ts:80 | with one prefix and one counter, different bases give different names |
| `DuplicatePlan.RepeatKeepsLast` | src/lib/bundle/duplicatesNew.ts:93-96 | a file key declared twice under one name keeps the name drawn later, and the counter still counts both |
| `DuplicatePlan.VarStmtPlanned` | src/lib/bundle/duplicatesNew.ts:128-153 | a variable statement keeps its modifiers, kind, types and initializers, and exactly its planned identifier declarators get their planned names |
| `DuplicatePlan.FuncPlanned` | src/lib/bundle/duplicatesNew.ts:154-172 | a function is renamed iff the plan lists it under the file's key, its body kept |
| `DuplicatePlan.ClassPlanned` | src/lib/bundle/duplicatesNew.ts:173-189 | a class is renamed iff the plan lists it under the file's key, its members kept |
| `DuplicatePlan.RenameUnplannedFile` | src/lib/bundle/duplicatesNew.ts:116-202 | a file the plan does not list is left unchanged by the first pass |
| `DuplicatePlan.RecordPlanned` | src/lib/bundle/duplicatesNew.ts:239-255 | planned named imports are recorded in `importMap` and no entry is removed |
| `DuplicatePlan.UpdateImport` | src/lib/bundle/duplicatesNew.ts:226-298 | an import only adds entries to `importMap` |
| `DuplicatePlan.UpdateStmt` | src/lib/bundle/duplicatesNew.ts:225-323 | the statement cases of the second pass only add entries to `importMap` |
| `DuplicatePlan.LocalBeforeImport` | src/lib/bundle/duplicatesNew.ts:327 | a call of a locally renamed name takes the local name even when an import of that name was recorded |
| `DuplicatePlan.ImportThenCall` | src/lib/bundle/duplicatesNew.ts:226-336 | an import the plan lists rebinds its element, and a later call of the imported name follows it in the same pass |
| `DuplicatePlan.CallFollowsImport` | src/lib/bundle/duplicatesNew.ts:324-336 | a call of a recorded imported name is rewritten to the new name |
| `DuplicatePlan.ImportOneElem` | src/lib/bundle/duplicatesNew.ts:235-273 | one planned element is renamed and recorded under its trimmed name |
| `DuplicatePlan.ImportedUseRenamed` | src/lib/bundle/duplicatesNew.ts:362-366 | a bare use of an imported name is rewritten |
| `DuplicatePlan.PropertyNameFollowsImport` | src/lib/bundle/duplicatesNew.ts:337-366 | as written, the bare-identifier rule also reaches a property name after '.', renaming an unrelated member that shares the imported name |
| `DuplicatePlan.NamedBindingsHideDefault` | src/lib/bundle/duplicatesNew.ts:235-273 | with named bindings present, the default binding beside them keeps its name |
| `DuplicatePlan.DefaultPlanned` | src/lib/bundle/duplicatesNew.ts:275-297 | a planned default binding alone is rebound and recorded |
| `DuplicatePlan.ExportFollowsLocal` | src/lib/bundle/duplicatesNew.ts:299-323 | export specifiers and `export default b` of a locally renamed name export the new name |
| `DuplicatePlan.StageFile` | src/lib/bundle/duplicatesNew.ts:117-200 | a stage keeps the file path and the other fields |
| `DuplicatePlan.RunStages` | src/lib/bundle/duplicatesNew.ts:388 | running stages keeps the file path and the other fields |
| `DuplicatePlan.ApplyRenamePlan` | src/lib/bundle/duplicatesNew.ts:107-390 | every file, in order, goes through the rename stage and then the reference update twice (`AllStagesApplied` spells out the result) |
| `DuplicatePlan.AllStagesApplied` | src/lib/bundle/duplicatesNew.ts:382-389 | after the three stages each file's content is the two updates applied to the renamed content |
| `DuplicatePlan.RenameThenUpdateTwice` | src/lib/bundle/duplicatesNew.ts:382-386 | the stages run rename, update, update, in that order |
| `DuplicatePlan.EmptyPlanRenamesNothing` | src/lib/bundle/duplicatesNew.ts:116-202 | with an empty plan the first pass changes no file |
| `DuplicateImports.StmtBindingsAt` | src/lib/bundle/duplicate.ts:25-56 | a statement contributes exactly the bindings at its default, namespace or named-element slots, with their local names |
| `DuplicateImports.StmtBindingsDistinct` | src/lib/bundle/duplicate.ts:25-56 | one statement's bindings sit at distinct positions |
| `DuplicateImports.AllBindingsAt` | src/lib/bundle/duplicate.ts:25-56 | the scan records a binding exactly when the file has that local name at that position |
| `DuplicateImports.AllBindingsDistinct` | src/lib/bundle/duplicate.ts:25-56 | no two scanned bindings share a position |
| `DuplicateImports.AddOccs` | src/lib/bundle/duplicate.ts:31 | `bindings.set(n, (bindings.get(n) or []).concat(b))` appends the position to that name's list only |
| `DuplicateImports.AddNames` | src/lib/bundle/duplicate.ts:31 | recording a binding adds its name to the keys |
| `DuplicateImports.AddGrouped` | src/lib/bundle/duplicate.ts:31 | keys stay distinct and no list is empty |
| `DuplicateImports.GroupAllSpec` | src/lib/bundle/duplicate.ts:23-57 | after the scan, each name's list holds the positions of its bindings in scan order |
| `DuplicateImports.FilterIn` | src/lib/bundle/duplicate.ts:23-57 | a position is in a name's list iff a binding of that name is at it |
| `DuplicateImports.FilterDistinct` | src/lib/bundle/duplicate.ts:23-57 | a name's list has no repeated position |
| `DuplicateImports.OccsOfMember` | src/lib/bundle/duplicate.ts:23 | `bindings.get` of a stored name returns its entry's list |
| `DuplicateImports.OccsOfEntry` | src/lib/bundle/duplicate.ts:23 | a name with bindings has an entry in the map |
| `DuplicateImports.CollectedOccs` | src/lib/bundle/duplicate.ts:23-57 | a position is listed under a name iff the file binds that name there |
| `DuplicateImports.CollectedSeparate` | src/lib/bundle/duplicate.ts:23-57 | lists have distinct positions, and no position is listed under two names |
| `DuplicateImports.CollectBindings` | src/lib/bundle/duplicate.ts:25-57 | the loop over the top-level statements builds the bindings map of the file |
| `DuplicateImports.CollectStmt` | src/lib/bundle/duplicate.ts:26-56 | one statement adds its bindings in slot order, and a statement that is not an import with a clause adds nothing |
| `DuplicateImports.CollectElems` | src/lib/bundle/duplicate.ts:47-55 | the loop over named elements adds each identifier element in order |
| `DuplicateImports.BuildRenameMap` | src/lib/bundle/duplicate.ts:60-75 | `renameMap` holds, for every binding after the first of each name, the name drawn for it in drawing order |
| `DuplicateImports.DrawGroup` | src/lib/bundle/duplicate.ts:65-74 | one name draws one new name per binding after its first, and the generator's count advances by that many |
| `DuplicateImports.KeyMapKeys` | src/lib/bundle/duplicate.ts:70 | `renameMap` has exactly the keys `name::i` drawn |
| `DuplicateImports.PosMapKeys` | src/lib/bundle/duplicate.ts:84-87 | `nodeRenameByPos` has exactly the positions of the renamed bindings |
| `DuplicateImports.KeyMapHas` | src/lib/bundle/duplicate.ts:70 | every drawn name is stored under its key |
| `DuplicateImports.PosMapHas` | src/lib/bundle/duplicate.ts:84-87 | every drawn name is stored under its binding's position |
| `DuplicateImports.ChunkAt` | src/lib/bundle/duplicate.ts:67-72 | the x-th name of one entry is for its (x+1)-th binding, numbered after the names drawn before |
| `DuplicateImports.RenamesSnoc` | src/lib/bundle/duplicate.ts:64-75 | the entries are drawn for in map order |
| `DuplicateImports.RenamesStep` | src/lib/bundle/duplicate.ts:64-75 | one more entry appends its own names after those drawn before |
| `DuplicateImports.RenamesLength` | src/lib/bundle/duplicate.ts:64-75 | one name is drawn for every binding after the first of its name |
| `DuplicateImports.RenamesOrigin` | src/lib/bundle/duplicate.ts:64-75 | each drawn name comes from one entry and one later binding of it, numbered by its drawing step |
| `DuplicateImports.RenamesAt` | src/lib/bundle/duplicate.ts:64-75 | the k-th binding of an entry gets the name drawn at its step |
| `DuplicateImports.PosMapIndex` | src/lib/bundle/duplicate.ts:78-91 | every key of `nodeRenameByPos` is the position of a drawn name |
| `DuplicateImports.RenamesApart` | src/lib/bundle/duplicate.ts:64-75 | names drawn at different steps come from different bindings |
| `DuplicateImports.RenamesKeysDistinct` | src/lib/bundle/duplicate.ts:70 | no two draws share a `name::i` key, so no entry of `renameMap` is overwritten |
| `DuplicateImports.RenamesPositionsDistinct` | src/lib/bundle/duplicate.ts:84-87 | no two draws share a position, so no entry of `nodeRenameByPos` is overwritten |
| `DuplicateImports.KeyMapAt` | src/lib/bundle/duplicate.ts:70 | the key `name::k` holds the name drawn for the k-th binding |
| `DuplicateImports.KeyMapGroup` | src/lib/bundle/duplicate.ts:70 | every later binding of an entry has its key in `renameMap` |
| `DuplicateImports.PosMapAt` | src/lib/bundle/duplicate.ts:84-87 | the position of the k-th binding holds the name drawn for it |
| `DuplicateImports.FirstBindingKept` | src/lib/bundle/duplicate.ts:59-91 | the first binding of every name is never renamed |
| `DuplicateImports.RenamedDistinct` | src/lib/bundle/duplicate.ts:59-91 | two renamed bindings get different names |
| `DuplicateImports.PositionRenames` | src/lib/bundle/duplicate.ts:78-91 | `nodeRenameByPos` maps every binding after the first of each name to its drawn name |
| `DuplicateImports.PlaceGroup` | src/lib/bundle/duplicate.ts:80-89 | one entry places its later bindings' names by position |
| `DuplicateImports.FindUseRename` | src/lib/bundle/duplicate.ts:218-231 | the loop finds the first non-empty name stored under `txt::occurrence_i` or `txt::i`, for a name bound more than once |
| `DuplicateImports.RenameClause` | src/lib/bundle/duplicate.ts:123-190 | the clause keeps its shape, every slot takes its new name when its position was renamed, and the clause counts as changed iff some slot was hit |
| `DuplicateImports.UseSpecsKept` | src/lib/bundle/duplicate.ts:98-119 | identifier uses never touch import element names, which are declaration names |
| `DuplicateImports.UseClauseKept` | src/lib/bundle/duplicate.ts:98-119 | identifier uses never touch the names of an import clause |
| `DuplicateImports.TopSlot` | src/lib/bundle/duplicate.ts:121-236 | after the transform each slot of a top-level statement holds its updated name |
| `DuplicateImports.Duplicates` | src/lib/bundle/duplicate.ts:5-243 | collect, draw, index by position and transform, as `duplicates` does on the parsed file |
| `DuplicateImports.DuplicatesBindingAt` | src/lib/bundle/duplicate.ts:5-243 | every binding of the output is the input's binding with its position's new name applied |
| `DuplicateImports.CounterNameLonger` | src/lib/bundle/duplicate.ts:68 | a drawn name is longer than the name it was drawn for |
| `DuplicateImports.NewNameAt` | src/lib/bundle/duplicate.ts:59-91 | the k-th binding of a name keeps it iff k is 0, and otherwise gets its drawn name |
| `DuplicateImports.Locate` | src/lib/bundle/duplicate.ts:23-57 | every recorded binding sits in one entry of the map at one index |
| `DuplicateImports.FirstKeepsName` | src/lib/bundle/duplicate.ts:59-91 | a binding keeps its local name iff it is the first binding of that name in the file |
| `DuplicateImports.LaterNamesDistinct` | src/lib/bundle/duplicate.ts:59-91 | after the transform, renamed bindings have pairwise different names |
| `DuplicateImports.UseRenameAt` | src/lib/bundle/duplicate.ts:218-231 | a use of a name bound more than once is pointed at the name drawn for its second binding |
| `DuplicateImports.UsesFollowSecond` | src/lib/bundle/duplicate.ts:203-233 | an identifier use is rewritten iff its name is bound more than once, and then to the new name of the second binding |
| `DuplicateImports.TotalZero` | src/lib/bundle/duplicate.ts:64-65 | with no name bound twice no name is drawn |
| `DuplicateImports.NoDuplicatesUnchanged` | src/lib/bundle/duplicate.ts:5-243 | a file whose imports bind every local name once comes out as it went in |
| `DuplicateImports.AsWrittenDiffers` | src/lib/bundle/duplicate.ts:98-119 | the parent-kind check differs from the intended declaration-name check exactly on identifier expressions whose parent is a declaration kind, for a renamed name |
| `DuplicateImports.InitializerKeptAsWritten` | src/lib/bundle/duplicate.ts:98-119 | as written, in `const v = a` the initializer `a` keeps its name while a use elsewhere goes to `__dup__a__1` |
| `DuplicateImports.IdUseIntended` | src/lib/bundle/duplicate.ts:204-233 | the model's rule renames non-expression identifiers as the intended check does |
| `DuplicateImports.ExprUseIntended` | src/lib/bundle/duplicate.ts:204-233 | the model's rule renames every identifier expression whatever its parent |
| `Anonymous.FileBase` | src/lib/bundle/visitors/anonymousExport.ts:22 | the key an exporter is recorded under is its basename up to the first '.', so it holds no '.' |
| `Anonymous.FileBaseOfTs` | src/lib/bundle/anonymous.ts:147 | the key of `<dir>/<n>.ts` is `n` |
| `Anonymous.BasenameDotSlash` | src/lib/bundle/anonymous.ts:445 | the basename of `<head>/<tail>` is `tail` when `tail` holds no '/' |
| `Anonymous.QuotedKeyKeepsQuote` | src/lib/bundle/anonymous.ts:443-446 | as written the key of `"./<n>"` is cut from the specifier's source text and keeps the closing quote: `<n>"` |
| `Anonymous.QuotedKeyWithExtension` | src/lib/bundle/anonymous.ts:443-446 | with an extension (`"./<n>.js"`) the quote goes with the extension and the key is `n` |
| `Anonymous.ImportKeyOfSibling` | src/lib/bundle/anonymous.ts:443-455 | cut from the specifier's value, the key of `./<n>` and `./<n>.js` equals the key the exporter `<dir>/<n>.ts` is recorded under |
| `Anonymous.Issue` | src/lib/bundle/anonymous.ts:163-169 | `getName` issues `<prefix><base>_<count+1>` and the push records {base: name, file: base, newName: name} |
| `Anonymous.NamedTrans` | src/lib/bundle/anonymous.ts:163-169 | names issued in steps compose: each push comes with one step of the counter |
| `Anonymous.Declared` | src/lib/bundle/anonymous.ts:198-222 | the new statement is `const <name> = e` with one declaration; an arrow lends it its modifiers and its return type |
| `Anonymous.ExportStmt` | src/lib/bundle/anonymous.ts:146-407 | a statement is replaced iff a name was issued for it, and every push comes with one counter step |
| `Anonymous.ExportKeeps` | src/lib/bundle/anonymous.ts:146-409 | the naming relation is kept by every step of the walk |
| `Anonymous.ExportFile` | src/lib/bundle/anonymous.ts:123-419 | after one file, the list has grown only by names issued in that file's base, one per counter step |
| `Anonymous.ExportOne` | src/lib/bundle/anonymous.ts:146-409 | a one-statement file goes through the visitor once |
| `Anonymous.NamelessFunctionNamed` | src/lib/bundle/anonymous.ts:148-180 | a nameless function gets a name iff it has both `export` and `default`; then it gets the next name and one entry is recorded |
| `Anonymous.NamelessClassNamed` | src/lib/bundle/anonymous.ts:148-190 | the same for a nameless class |
| `Anonymous.DefaultExpressionSplit` | src/lib/bundle/anonymous.ts:192-405 | `export default` of an arrow, object, array, string or number becomes `const <name> = e; export default <name>` with one entry recorded |
| `Anonymous.ExportEqualsKept` | src/lib/bundle/anonymous.ts:192-196 | `export = <literal>` is left alone and nothing is recorded |
| `Anonymous.ExportIdentifierKept` | src/lib/bundle/anonymous.ts:192-407 | `export default <identifier>` is left alone |
| `Anonymous.ExportCallKept` | src/lib/bundle/anonymous.ts:192-407 | `export default <call>` is left alone |
| `Anonymous.NamedConsistent` | src/lib/bundle/anonymous.ts:13-16 | naming keeps the counter and the list in step |
| `Anonymous.NamedKeepsConsistent` | src/lib/bundle/anonymous.ts:13-16 | the i-th entry keeps carrying the (i+1)-th name |
| `Anonymous.ConsistentDistinct` | src/lib/bundle/anonymous.ts:8-16 | because one counter is shared by every file, no two recorded entries carry the same name |
| `Anonymous.ImportStmt` | src/lib/bundle/anonymous.ts:442-478 | the list grows by at most one entry, and it grows iff the declaration is replaced |
| `Anonymous.ImportStmtRebound` | src/lib/bundle/anonymous.ts:453-462 | every pushed entry is for the importing file and carries a name some export entry holds |
| `Anonymous.ImportKeeps` | src/lib/bundle/anonymous.ts:441-479 | the rebinding relation is kept by every step of the walk |
| `Anonymous.ImportFile` | src/lib/bundle/anonymous.ts:432-489 | after one file the list only grows, by entries for that file naming exported names |
| `Anonymous.DefaultImportRebound` | src/lib/bundle/anonymous.ts:448-476 | a default import whose key has an export entry is rebound to that entry's name, its named bindings kept, and {local, importer, name} is recorded |
| `Anonymous.UnmatchedImportKept` | src/lib/bundle/anonymous.ts:453-456 | with no export entry for the key, the declaration and the list stay as they were |
| `Anonymous.NoDefaultKept` | src/lib/bundle/anonymous.ts:448-451 | an import with no default binding is kept |
| `Anonymous.FirstEntryDecides` | src/lib/bundle/anonymous.ts:453-455 | the first export entry with the key decides, whatever its base |
| `Anonymous.Target` | src/lib/bundle/anonymous.ts:42-45 | a use is redirected iff an entry has its name as base and the current file as file, to that entry's new name |
| `Anonymous.CallExpr` | src/lib/bundle/anonymous.ts:39-82 | only calls, property accesses and `new` on an identifier are replaced |
| `Anonymous.CallRedirected` | src/lib/bundle/anonymous.ts:39-82 | a call, property base and `new` on a rebound name are redirected, and the replaced call's arguments are not visited |
| `Anonymous.ExportSpecRedirected` | src/lib/bundle/anonymous.ts:84-98 | an export specifier is matched and rewritten on its `name`, keeping `propertyName` |
| `Anonymous.CallIgnoresOtherFiles` | src/lib/bundle/anonymous.ts:42-44 | entries recorded for other files never change a file's redirection |
| `Anonymous.ExportPass` | src/lib/bundle/anonymous.ts:509-512 | the export handler over the files keeps their number, names and other fields, only extends the list, and keeps counter and list in step |
| `Anonymous.ImportPass` | src/lib/bundle/anonymous.ts:509-512 | the import handler over the files keeps their number and names, and only appends entries naming exported names |
| `Anonymous.CallPass` | src/lib/bundle/anonymous.ts:509-512 | the call handler maps each file through the call visitor, keeping name and other fields |
| `Anonymous.AnonymousNames.constructor` | src/lib/bundle/anonymous.ts:8-16 | both lists start empty and the counter at 0 |
| `Anonymous.AnonymousNames.ExportHandler` | src/lib/bundle/anonymous.ts:120-420 | the loop over the files gives the export pass's files and its new counter and export list, and leaves the import list alone |
| `Anonymous.AnonymousNames.ImportHandler` | src/lib/bundle/anonymous.ts:429-490 | the loop gives the import pass's files and import list, reading the export list only |
| `Anonymous.AnonymousNames.CallHandler` | src/lib/bundle/anonymous.ts:26-112 | the loop gives the call pass's files |
| `Anonymous.AnonymousNames.Handle` | src/lib/bundle/anonymous.ts:500-514 | `anonymousHandler` runs export, import and call handler in order over all files, the lists carrying over |
| `Anonymous.ExportPassOne` | src/lib/bundle/anonymous.ts:510-512 | one file through the export pass |
| `Anonymous.ExportPassTwo` | src/lib/bundle/anonymous.ts:510-512 | two files through the export pass, in order, sharing the counter |
| `Anonymous.ImportPassTwo` | src/lib/bundle/anonymous.ts:510-512 | two files through the import pass, in order, sharing the list |
| `Anonymous.UseNotNamed` | src/lib/bundle/anonymous.ts:146-409 | an importing file has nothing for the export visitor to name |
| `Anonymous.UseRebound` | src/lib/bundle/anonymous.ts:441-479 | in an importing file the default binding is rebound and the call is left for the call visitor |
| `Anonymous.UseRedirected` | src/lib/bundle/anonymous.ts:38-101 | in an importing file the call on the local name is redirected to the recorded name |
| `Anonymous.ExportPhase` | src/lib/bundle/anonymous.ts:500-512 | in a two-file bundle the exporter's default expression takes the first name and the importer is untouched |
| `Anonymous.ImportPhase` | src/lib/bundle/anonymous.ts:500-512 | then the importer's default binding takes the recorded name |
| `Anonymous.CallPhase` | src/lib/bundle/anonymous.ts:500-512 | then the importer's call is redirected |
| `Anonymous.ExportImportCall` | src/lib/bundle/anonymous.ts:500-514 | `export default () => 1` in `<dir>/<n>.ts` imported as `f` from "./<n>" and called: afterwards the import and the call both use `__anonymous__<n>_1` |
| `Anonymous.FindAfterMisses` | src/lib/bundle/anonymous.ts:42-44 | with no earlier match, an entry pushed last is the one found |
| `Utils.IsInsideNamespace` | src/utils.ts:44-56 | the walk up the parent chain answers true iff some ancestor is a module declaration whose flags are exactly `Namespace` |
| `Utils.DescentFlagIsInside` | src/utils.ts:44-56 | the flag a walk from the root carries down to a node agrees with `isInsideNamespace` walking up from it |
| `Utils.SyntaxKeeps` | src/utils.ts:68-119 | the two flags of the walk only go from false to true |
| `Utils.Classify` | src/utils.ts:122-147 | a file is CommonJS iff it has CommonJS syntax and no ES syntax, ES iff it has ES syntax (mixed counts as ES), never both |
| `Utils.TopLevelEsm` | src/utils.ts:70-93 | an import, export or exported declaration at the top level makes the file an ES module, whatever else it holds |
| `Utils.RequireIsCommonJs` | src/utils.ts:96-104 | `const x = require("m")` alone is CommonJS |
| `Utils.EmptyFileIsNeither` | src/utils.ts:122-147 | a file with neither syntax is neither |
| `Utils.FindProperty` | src/utils.ts:150-161 | the result is the node's own base identifier when it is a property access on an identifier, and empty otherwise; the children's results are dropped |
| `Utils.FindPropertyOwnBaseOnly` | src/utils.ts:150-161 | `a.b.c` gives nothing, `a.b` gives `a` |
| `ImportsAll.TypeOnlyAliases` | src/bundle/remove/importsAll.ts:22-33 | a name is collected iff some top-level statement is `import type <name> = require("…")` with a string literal |
| `ImportsAll.PreScan` | src/bundle/remove/importsAll.ts:22-33 | the pre-scan loop collects exactly those names |
| `ImportsAll.ImportEqualsString` | src/bundle/remove/importsAll.ts:87-131 | an import-equals declaration yields a string iff its name is non-empty |
| `ImportsAll.BoundNames` | src/bundle/remove/importsAll.ts:161-167 | a name is collected iff some element of the pattern binds that identifier, and no more names than elements |
| `ImportsAll.ImportsStmt` | src/bundle/remove/importsAll.ts:79-189 | a statement is replaced only by an empty statement, with exactly one string pushed to `removedStatements`; otherwise nothing changes |
| `ImportsAll.ImportsType` | src/bundle/remove/importsAll.ts:49-76 | a qualified type `L.R` pushes `L` to `typesNames` and `R` to `typeObj[L]`, and is rewritten to `R` iff the file is CommonJS and `L` is neither "ts" nor a type-only alias; any other type changes nothing |
| `ImportsAll.ImportsKeeps` | src/bundle/remove/importsAll.ts:37-192 | every step of the visitor only grows the lists, and `typeObj` keeps its keys and extends their lists |
| `ImportsAll.ImportsAllFile` | src/bundle/remove/importsAll.ts:14-194 | after one file the accumulators have only grown |
| `ImportsAll.ImportsAllState.constructor` | src/bundle/remove/importsAll.ts:10-12 | `properties`, `typeObj` and `typesNames` start empty |
| `ImportsAll.ImportsAllState.VisitFile` | src/bundle/remove/importsAll.ts:14-194 | one file's output, removed strings and new module-level lists are those of the visitor over the file, and the lists only grow |
| `ImportsAll.ImportsAllFiles` | src/bundle/remove/importsAll.ts:10-194 | running the visitor over files in order gives one output per file and accumulators that have only grown |
| `ImportsAll.ImportsAllFilesAt` | src/bundle/remove/importsAll.ts:10-194 | file i comes out exactly as the one-file visitor makes it from the accumulators left by the files before it |
| `ImportsAll.ImportsAllState.VisitAll` | src/bundle/remove/importsAll.ts:10-194 | the outputs, the removed statements and the three module-level fields after the loop are those of running the one-file visitor over the files in order from the old field values; `removedStatements`, `properties` and `typesNames` only grow |
| `ImportsAll.ImportRemoved` | src/bundle/remove/importsAll.ts:79-84 | an import declaration becomes an empty statement and its text is pushed |
| `ImportsAll.TypeOnlyImportEquals` | src/bundle/remove/importsAll.ts:109-113 | `import type N = require("src")` emits `import type * as N from "src";` |
| `ImportsAll.ValueImportEquals` | src/bundle/remove/importsAll.ts:95-126 | a value import-equals emits a namespace import when its name was seen as a property-access base and the source is neither empty nor "typescript", a default import otherwise |
| `ImportsAll.RequireDefault` | src/bundle/remove/importsAll.ts:155-178 | `const x = require("m")` emits a namespace import when `x` was seen as a property-access base, a default import otherwise |
| `ImportsAll.RequireNamed` | src/bundle/remove/importsAll.ts:161-181 | `const { a, b } = require("m")` emits `import { a, b } from "m";` |
| `ImportsAll.ManyDeclaratorsKept` | src/bundle/remove/importsAll.ts:140-142 | a variable statement with more than one declarator is not replaced |
| `ImportsAll.ImportsAllTwoFiles` | src/bundle/remove/importsAll.ts:10-12 | the accumulators carry over from file to file and only grow |
| `RemoveExports.WithMods` | src/lib/bundle/visitors/removeExports.ts:33-88 | each declaration kind is rebuilt with the new modifiers and its own children |
| `RemoveExports.RemoveKeeps` | src/lib/bundle/visitors/removeExports.ts:12-107 | the visitor carries no state |
| `RemoveExports.RemoveOne` | src/lib/bundle/visitors/removeExports.ts:12-107 | `export { … }` becomes empty; `export default <identifier>` becomes empty and other export assignments stay; a declaration outside a namespace loses exactly `export` and `default`, inside one it is kept; a namespace keeps its header |
| `RemoveExports.RemoveExportsAll` | src/lib/bundle/visitors/removeExports.ts:12-107 | statements are rewritten one for one |
| `RemoveExports.WalkIsReference` | src/lib/bundle/visitors/removeExports.ts:12-107 | on a file whose export syntax stands only at module or namespace top level, the visitor's walk equals the statement-by-statement definition |
| `RemoveExports.StmtIsReference` | src/lib/bundle/visitors/removeExports.ts:12-107 | the same for one statement, namespaces recursed into with `isInsideNamespace` set |
| `RemoveExports.ReferenceKeepsModuleBody` | src/lib/bundle/visitors/removeExports.ts:12-107 | the result keeps export syntax at module level only |
| `RemoveExports.ReferenceIdempotent` | src/lib/bundle/visitors/removeExports.ts:12-107 | applying the definition twice is applying it once |
| `RemoveExports.RemoveExportsIdempotent` | src/lib/bundle/visitors/removeExports.ts:10-109 | running the visitor again changes nothing |
| `RemoveExports.NothingExportedLeft` | src/lib/bundle/visitors/removeExports.ts:10-109 | afterwards the file has as many statements, no export declaration, no `export default <identifier>`, no top-level declaration marked `export` or `default`, and every other modifier kept |
| `RemoveExports.NamespaceKeepsModifiers` | src/lib/bundle/visitors/removeExports.ts:14-15 | inside a plain namespace declarations keep `export`, while `export { … }` still goes |
| `RemoveExports.UnexportedKept` | src/lib/bundle/visitors/removeExports.ts:24-29 | a declaration with neither `export` nor `default` is not replaced |
| `CommonJsExports.CjsKeeps` | src/bundle/remove/commonjsExports.ts:8-65 | the visitor carries no state |
| `CommonJsExports.ModuleExportsIdentifier` | src/bundle/remove/commonjsExports.ts:17-25 | `module.exports = <identifier>` becomes an empty statement |
| `CommonJsExports.ModuleExportsObject` | src/bundle/remove/commonjsExports.ts:26-39 | `module.exports = { … }` is removed iff every property is shorthand |
| `CommonJsExports.ExportsMemberObject` | src/bundle/remove/commonjsExports.ts:41-58 | `exports.n = { … }` becomes `var n = { … }` |
| `CommonJsExports.ExportsMemberOther` | src/bundle/remove/commonjsExports.ts:41-59 | `exports.n = <not an object>` is not replaced |
| `CommonJsExports.CjsOne` | src/bundle/remove/commonjsExports.ts:9-64 | a rewritten statement becomes empty or a one-declarator `var`; any other statement stays; the result is never rewritten again |
| `CommonJsExports.CjsAll` | src/bundle/remove/commonjsExports.ts:9-64 | top-level statements are rewritten one for one |
| `CommonJsExports.WalkIsReference` | src/bundle/remove/commonjsExports.ts:6-67 | when the rewritten forms stand at top level only, the visitor's walk equals the statement-by-statement definition |
| `CommonJsExports.ReferenceIdempotent` | src/bundle/remove/commonjsExports.ts:9-64 | the definition leaves nothing to rewrite |
| `CommonJsExports.CjsIdempotent` | src/bundle/remove/commonjsExports.ts:6-67 | running the visitor again changes nothing |
| `ImportRegex.WsEnd` | dist/index.mjs:104 | a greedy `\s+`/`\s*` run ends at the first character that is not JavaScript white space |
| `ImportRegex.WordEnd` | dist/index.mjs:111 | a greedy `\w+` run ends at the first character that is not a word character |
| `ImportRegex.TextEnd` | dist/index.mjs:104 | a greedy `[^"']+` run ends at the first quote |
| `ImportRegex.QuotedAt` | dist/index.mjs:104 | `["']([^"']+)["']` at k captures a non-empty, quote-free path that stands between two quotes |
| `ImportRegex.FromAt` | dist/index.mjs:104 | `\s+from\s+` then the quoted path matches only at white space |
| `ImportRegex.LazyClause` | dist/index.mjs:104 | the lazy `(.*?)` captures the shortest clause, on one line, after which the rest matches |
| `ImportRegex.MatchAt` | dist/index.mjs:104 | a match at p starts with `import` there and the text holds a quoted path after white space |
| `ImportRegex.SearchFrom` | dist/index.mjs:104 | the leftmost match from p, if any, lies in a text holding `import` |
| `ImportRegex.ImportMatch` | dist/index.mjs:104 | `importStr.match(...)`: when it matches, the captured path is non-empty and quote-free |
| `ImportRegex.PathsQuoteFree` | dist/index.mjs:104 | every path the search captures is quote-free |
| `ImportRegex.DefaultMatch` | dist/index.mjs:111 | `/import\s+(?:type\s+)?(\w+)/` captures a non-empty run of word characters that follows white space |
| `ImportRegex.NamespaceMatch` | dist/index.mjs:133 | `/\*\s+as\s+(\w+)/` captures a non-empty run of word characters |
| `ImportRegex.BodyWritten` | dist/index.mjs:104 | a clause written before ` from "<path>"` is captured whole by the optional group |
| `ImportRegex.ClauseMatch` | dist/index.mjs:104-107 | on `import [type ]<clause> from "<path>"…` the pattern captures exactly the clause and the path |
| `ImportRegex.SideEffectMatch` | dist/index.mjs:104-110 | `import "<path>"…` matches with no clause |
| `ImportRegex.SideEffectNoName` | dist/index.mjs:111-112 | on the same text the default-name pattern finds no name |
| `ImportRegex.ImportEqualsNoMatch` | dist/index.mjs:104-106 | the text of `import x = require("<path>")` does not match, so it is skipped |
| `ImportRegex.NamespaceClause` | dist/index.mjs:133-135 | the clause `* as N` names the alias `N` |
| `MergeImports.AddAll` | dist/index.mjs:115-117 | adding names to a `Set` keeps what it had, adds the new names, and repeats none |
| `MergeImports.Put` | dist/index.mjs:115-117 | `if (!has) set(new Set()); get().add(...)` changes only that key's set, which becomes the old set with the names added, and keeps the table well formed |
| `MergeImports.TrimEach` | dist/index.mjs:128 | every piece is trimmed, one for one |
| `MergeImports.NonEmpty` | dist/index.mjs:129 | `filter(Boolean)` keeps exactly the non-empty pieces |
| `MergeImports.ClauseNames` | dist/index.mjs:125-129 | the names read from a `{ … }` clause are non-empty and hold no comma |
| `MergeImports.ClassifyWith` | dist/index.mjs:107-146 | a text is read as named imports iff its clause starts with "{"; the kind carries the matched path and the type-only flag given |
| `MergeImports.ClassifyAsWritten` | dist/index.mjs:104-108 | as written, a matched named or default text counts as type-only iff it contains "import type" anywhere; an unmatched text is skipped |
| `MergeImports.Classify` | dist/index.mjs:104-108 | corrected: type-only iff the pattern's own `type\s+` took part in the match; an unmatched text is skipped, and every path read is quote-free |
| `MergeImports.Classified` | dist/index.mjs:103-147 | every text is read on its own, in order |
| `MergeImports.ClassifiedAsWritten` | dist/index.mjs:103-147 | the same with the as-written type test |
| `MergeImports.MergeHoisted` | dist/index.mjs:148-193 | the statements returned are sorted and are exactly those the five write loops produce |
| `MergeImports.CollectValid` | dist/index.mjs:98-147 | every table built has one set per key, without repeats |
| `MergeImports.CollectKeys` | dist/index.mjs:98-147 | a module is a key of a table iff some text of that kind names it |
| `MergeImports.CollectNames` | dist/index.mjs:98-147 | a module's set is the names its texts give, in first-seen order, without repeats |
| `MergeImports.GivenMembers` | dist/index.mjs:98-147 | a name is given for a module and kind iff some text of that kind for that module holds it |
| `MergeImports.NamedStatement` | dist/index.mjs:149-167 | a module with regular named imports gets one `import { … }` with its regular and type-only names merged, without repeats, sorted; and no `import type { … }` |
| `MergeImports.TypeNamedStatement` | dist/index.mjs:162-167 | a module with only type-only named imports gets one `import type { … }` with its names sorted |
| `MergeImports.DefaultStatement` | dist/index.mjs:168-186 | a module with regular default imports gets one `import a, b from` with regular then type-only names in insertion order, and no `import type` default |
| `MergeImports.DefaultNames` | dist/index.mjs:168-175 | that list is the given names without repeats and is never empty |
| `MergeImports.TypeDefaultStatement` | dist/index.mjs:181-186 | a module with only type-only default imports gets one `import type a from` |
| `MergeImports.StarStatement` | dist/index.mjs:187-192 | a module with namespace imports gets one `import * as a, b from` in insertion order |
| `MergeImports.PartLines` | dist/index.mjs:148-192 | a loop writes a statement iff some module fed to that table yields it |
| `MergeImports.EmitMembers` | dist/index.mjs:148-192 | the statements written are those of the five loops |
| `MergeImports.MergeHoistedStatements` | dist/index.mjs:148-193 | a statement is in the result iff some module and kind yields it |
| `MergeImports.MergedStatements` | dist/index.mjs:97-194 | `mergeImports` returns a sorted list, and a statement is in it iff some module and kind read from the texts yields it |
| `MergeImports.ClauseNamesOfList` | dist/index.mjs:125-129 | the clause `{ a, b }` written by the import strings reads back as `[a, b]` |
| `MergeImports.ClassifyNamedImport` | dist/index.mjs:104-131 | `import { a, b } from "m";` reads back as regular named imports `a, b` from `m` |
| `MergeImports.ClassifyTypeNamedImport` | dist/index.mjs:104-131 | `import type { a, b } from "m";` reads back as type-only named imports |
| `MergeImports.ClassifyDefaultImport` | dist/index.mjs:104-146 | `import n from "m";` reads back as a regular default import of `n` |
| `MergeImports.ClassifyTypeDefaultImport` | dist/index.mjs:104-146 | `import type n from "m";` reads back as a type-only default import |
| `MergeImports.ClassifyNamespaceImport` | dist/index.mjs:104-140 | `import * as n from "m";` reads back as a namespace import |
| `MergeImports.ClassifyTypeNamespaceImport` | dist/index.mjs:104-140 | `import type * as n from "m";` reads back as a namespace import, its type-only mark lost |
| `MergeImports.ClassifySideEffect` | dist/index.mjs:110-119 | `import "m";` is skipped |
| `MergeImports.ClassifyImportEquals` | dist/index.mjs:104-106 | an `import x = require("m")` text is skipped |
| `MergeImports.SkippedIgnored` | dist/index.mjs:105-106 | a text that is skipped leaves the result unchanged |
| `MergeImports.SideEffectIgnored` | dist/index.mjs:110-119 | a side-effect import leaves the result unchanged |
| `MergeImports.ImportEqualsIgnored` | dist/index.mjs:104-106 | an import-equals text leaves the result unchanged |
| `MergeImports.NamedPair` | dist/index.mjs:121-160 | two named imports from one module merge into one statement with the union of names, sorted |
| `MergeImports.MergeTwoNamed` | dist/index.mjs:97-194 | `import { a… } from "m"` and `import { b… } from "m"` become one `import { … } from "m"` with the union of names sorted |
| `MergeImports.DefaultOne` | dist/index.mjs:168-186 | one default import is written back as it came, regular or type-only |
| `MergeImports.MergeOneDefault` | dist/index.mjs:97-194 | `import n from "m";` alone comes back unchanged |
| `MergeImports.TypePrefixedDefaultMisread` | dist/index.mjs:108 | as written, `import typeorm from "typeorm";` is taken as type-only and comes back as `import type typeorm from "typeorm";` |
| `MergeImports.MergeImports` | dist/index.mjs:97-194 | the method returns the merged, sorted statements |
| `MergeImports.ReadImports` | dist/index.mjs:98-147 | the reading loop fills the five maps as the texts in order dictate |
| `MergeImports.WriteImports` | dist/index.mjs:148-192 | the five write loops, in order |
| `MergeImports.WriteNamed` | dist/index.mjs:149-161 | the loop over `importMap` writes each module's statement in key order |
| `MergeImports.WriteTypeNamed` | dist/index.mjs:162-167 | the loop over `typeImportMap` |
| `MergeImports.WriteDefaults` | dist/index.mjs:168-180 | the loop over `defaultImports` |
| `MergeImports.WriteTypeDefaults` | dist/index.mjs:181-186 | the loop over `typeDefaultImports` |
| `MergeImports.WriteNamespaces` | dist/index.mjs:187-192 | the loop over `namespaceImports` |
| `MergeImports.AddMissing` | dist/index.mjs:151-156 | the loop adding type-only names not already regular gives the set union in insertion order |
| `RemoveImports.RemoveStmt` | dist/index.mjs:77-88 | the visitor replaces a node iff it is an import or import-equals declaration, pushing its text and returning an empty statement; anything else is walked into with the list unchanged |
| `RemoveImports.RemoveKeeps` | dist/index.mjs:74-91 | the visitor only ever appends to `removedStatements` |
| `RemoveImports.RemoveWalk` | dist/index.mjs:74-91 | walking a file only appends to the shared list |
| `RemoveImports.RemoveImportsFile` | dist/index.mjs:72-96 | the handler keeps the file name, only appends to the list, and the cleaned content holds no empty statement |
| `RemoveImports.ImportFreeKept` | dist/index.mjs:77-89 | a file with no import at any depth is unchanged and appends nothing |
| `RemoveImports.FlatRemoved` | dist/index.mjs:74-91 | when imports stand only at the top level, each is replaced in place by an empty statement and their texts are appended in file order |
| `RemoveImports.FlatFile` | dist/index.mjs:72-96 | for such a file the new content holds a statement iff the old one held it and it is neither an import nor empty, and the list gains the import texts in order |
| `RemoveImports.SingleImport` | dist/index.mjs:72-96 | a file that is a single import becomes empty and appends exactly that import's text |
| `Bundler.Cleaned` | src/lib/bundle/bundleCreator.ts:10-25 | every file goes through the handler one for one: same name, its content re-printed and cleaned |
| `Bundler.CollectPass` | src/lib/bundle/index.ts:65 | the collection stage leaves every file's statements as the printer gives them back (its effect is only on `namesMap`) |
| `Bundler.UpdatePass` | src/lib/bundle/index.ts:67-73 | the update stage rewrites every file, one for one, and only ever advances the "d_" counter and appends to `callNameMap` |
| `Bundler.CallPass` | src/lib/bundle/index.ts:75-81 | the call stage rewrites every file, one for one, and no file it returns holds a top-level empty statement |
| `Bundler.ExportPass` | src/lib/bundle/index.ts:83-89 | the export stage rewrites every file, one for one; `exportNameMap` only grows, and a missing list stays missing |
| `Bundler.ImportPass` | src/lib/bundle/index.ts:91-97 | the import stage rewrites every file, one for one, and only appends to `importNameMap` |
| `Bundler.AnonExportPass` | src/lib/bundle/index.ts:162-167 | the anonymous export stage rewrites every file, one for one, leaving no top-level empty statement |
| `Bundler.AnonImportPass` | src/lib/bundle/index.ts:168-174 | the anonymous import stage rewrites every file, one for one |
| `Bundler.AnonCallPass` | src/lib/bundle/index.ts:175-180 | the anonymous call stage rewrites every file, one for one |
| `Bundler.RemoveImportsPass` | src/lib/bundle/index.ts:188-192 | the import-removal stage rewrites every file, one for one, and only appends to `removedStatements` |
| `Bundler.RemoveExportsEach` | src/lib/bundle/index.ts:195-200 | every file given is replaced by the export-free version of its content |
| `Bundler.ThroughCall` | src/lib/bundle/index.ts:63-81 | collect, update and call keep the number of files and never lower the "d_" counter |
| `Bundler.RenameStages` | src/lib/bundle/index.ts:60-119 | rename mode keeps the number of files and never lowers the "d_" counter |
| `Bundler.EntryWarnings` | src/lib/bundle/index.ts:129-135 | a name yields warning lines iff it has more than one declaring file |
| `Bundler.FileLines` | src/lib/bundle/index.ts:134 | one line `  - <file>` per declaring file, in order |
| `Bundler.AnonymousStages` | src/lib/bundle/index.ts:161-185 | export, import and call stages, the import stage reading what the export stage recorded; the number of files is kept |
| `Bundler.AnonymousStagesAsWritten` | src/lib/bundle/index.ts:168-174 | as written, the import stage is handed `exportDefaultImportNameMap` in both slots; the number of files is kept |
| `Bundler.External` | src/lib/bundle/index.ts:204-205 | a removed import text is kept iff the regex finds a quoted specifier not starting with `./` or `../`; order is kept |
| `Bundler.Blocks` | src/lib/bundle/index.ts:210-223 | one `//<relative path>` block per file, in order |
| `Bundler.BundleSpec` | src/lib/bundle/index.ts:46-242 | without renaming, the point ends in `process.exit(1)` iff the collected map has a name with more than one file; an exit leaves the counters as they were |
| `Bundler.Sequenced` | src/lib/bundle/index.ts:244-254 | the points in order: no outcome before the last is an exit, the run stops early only after an exit, and a non-empty list gives at least one outcome |
| `Bundler.RunDependencyPlugins` | src/lib/bundle/index.ts:144-156 | the loop applies the dependency plugins in list order |
| `Bundler.RunPreProcess` | src/lib/bundle/index.ts:227-239 | the loop applies the pre-process plugins in list order |
| `Bundler.RunCollect` | src/lib/bundle/index.ts:115-119 | the per-file loop of the collection stage |
| `Bundler.RunUpdate` | src/lib/bundle/index.ts:115-119 | the per-file loop of the update stage |
| `Bundler.RunCall` | src/lib/bundle/index.ts:115-119 | the per-file loop of the call stage |
| `Bundler.RunExport` | src/lib/bundle/index.ts:115-119 | the per-file loop of an export stage |
| `Bundler.RunImport` | src/lib/bundle/index.ts:115-119 | the per-file loop of the import stage |
| `Bundler.RunAnonExport` | src/lib/bundle/index.ts:183-185 | the per-file loop of the anonymous export stage |
| `Bundler.RunAnonImport` | src/lib/bundle/index.ts:183-185 | the per-file loop of the anonymous import stage |
| `Bundler.RunAnonCall` | src/lib/bundle/index.ts:183-185 | the per-file loop of the anonymous call stage |
| `Bundler.RunRemoveImports` | src/lib/bundle/index.ts:188-192 | the per-file loop of import removal |
| `Bundler.RunRemoveExports` | src/lib/bundle/index.ts:195-200 | the loop removing exports from every file but the entry |
| `Bundler.FilterExternal` | src/lib/bundle/index.ts:204-205 | the filter loop keeps exactly the external imports, in order |
| `Bundler.WarnEntry` | src/lib/bundle/index.ts:130-135 | the warning lines of one entry |
| `Bundler.ReportDuplicates` | src/lib/bundle/index.ts:121-140 | the `forEach` loop prints every warning in insertion order and sets `_err` iff some name has more than one file |
| `Bundler.WarningsIffDuplicate` | src/lib/bundle/index.ts:129-140 | nothing is printed iff no name has more than one declaring file |
| `Bundler.RunRename` | src/lib/bundle/index.ts:60-119 | rename mode, its lists as locals, computes the rename stages |
| `Bundler.RunAnonymous` | src/lib/bundle/index.ts:160-186 | the three anonymous stages |
| `Bundler.RunFinish` | src/lib/bundle/index.ts:187-239 | removal, the entry split, filtering, merging, assembly and the pre-process plugins |
| `Bundler.NameSources.constructor` | src/lib/bundle/visitors/duplicateUpdate.ts:11-14 | both module-level name sources start with nothing issued |
| `Bundler.NameSources.BundlePoint` | src/lib/bundle/index.ts:46-242 | `bundler(point)` yields the outcome and moves the two counters as the specification function says |
| `Bundler.NameSources.Bundle` | src/lib/bundle/index.ts:244-254 | `bundle` runs the points in order, each from the counters the previous one left |
| `BundlerFacts.CollectFiles` | src/lib/bundle/visitors/duplicateCollection.ts:17-80 | after collection, a name's files are the old ones followed by one entry per top-level declaration of it, in file order |
| `BundlerFacts.CollectKeysDistinct` | src/lib/bundle/visitors/duplicateCollection.ts:17-80 | collection never records a name twice as a key |
| `BundlerFacts.HasDuplicateBySize` | src/lib/bundle/index.ts:129-130 | some entry has more than one file iff some name's set size exceeds one |
| `BundlerFacts.CollectedDuplicate` | src/lib/bundle/index.ts:121-140 | the no-rename check fails iff some name is declared at top level more than once across the files |
| `BundlerFacts.CleanedTwice` | src/lib/bundle/bundleCreator.ts:10-25 | running the handler with no visitor change twice is the same as once |
| `BundlerFacts.FirstIssued` | src/lib/bundle/visitors/duplicateUpdate.ts:24-88 | the first name the update visitor records is for a duplicated name |
| `BundlerFacts.IssuedNothing` | src/lib/bundle/visitors/duplicateUpdate.ts:24-88 | with no duplicated name, the update visitor records nothing and issues no name |
| `BundlerFacts.UpdateIdle` | src/lib/bundle/visitors/duplicateUpdate.ts:24-88 | with no duplicated name, the update visitor changes nothing |
| `BundlerFacts.RefsIdle` | src/lib/bundle/visitors/duplicateCallExpression.ts:12-88 | with empty lists, the call and export visitors change nothing |
| `BundlerFacts.RefImportIdle` | src/lib/bundle/visitors/duplicateImportExpression.ts:24-117 | with an empty export list, the import visitor changes nothing |
| `BundlerFacts.AnonIdle` | src/lib/bundle/visitors/anonymousImport.ts:13-47 | with empty lists, the anonymous import and call visitors change nothing |
| `BundlerFacts.UpdatePassIdle` | src/lib/bundle/index.ts:67-73 | with no duplicated name, the update stage only re-prints |
| `BundlerFacts.CallPassIdle` | src/lib/bundle/index.ts:75-81 | with empty lists, the call stage only re-prints |
| `BundlerFacts.ExportPassIdle` | src/lib/bundle/index.ts:83-89 | with empty lists, the export stage only re-prints and keeps its state |
| `BundlerFacts.ImportPassIdle` | src/lib/bundle/index.ts:91-97 | with an empty export list, the import stage only re-prints and records nothing |
| `BundlerFacts.AnonImportPassIdle` | src/lib/bundle/index.ts:168-174 | with an empty list, the anonymous import stage only re-prints |
| `BundlerFacts.AnonCallPassIdle` | src/lib/bundle/index.ts:175-180 | with an empty list, the anonymous call stage only re-prints |
| `BundlerFacts.RenameWithoutDuplicates` | src/lib/bundle/index.ts:60-119 | when no name is declared twice, rename mode only re-prints and issues no name |
| `BundlerFacts.ExportWiringAsWritten` | src/lib/bundle/index.ts:82-113 | as written, every stage after `call` changes nothing |
| `BundlerFacts.ExportStageRenames` | src/lib/bundle/visitors/duplicateExportExpression.ts:18-40 | wired as its parameters intend, `export { b }` of a renamed `b` exports the new name and records it in `exportNameMap` |
| `BundlerFacts.AnonymousWiringAsWritten` | src/lib/bundle/index.ts:168-180 | as written, only the anonymous export stage acts; the import and call stages change nothing |
| `BundlerFacts.AnonymousImportRebinds` | src/lib/bundle/visitors/anonymousImport.ts:13-47 | wired as intended, a default import of a module whose anonymous default was named takes that name and is recorded |
| `BundlerFacts.ExternalIff` | src/lib/bundle/index.ts:204 | for a text with exactly one quoted part, the filter keeps it iff the part is non-empty and starts with neither `./` nor `../` |
| `BundlerFacts.ImportTextExternal` | src/lib/bundle/index.ts:204-205 | an import's text is kept iff its module specifier is non-empty and not relative |
| `BundlerFacts.EntryKeepsExports` | src/lib/bundle/index.ts:199-201 | the entry file keeps its exports; every other file has them removed, one for one |
| `BundlerFacts.DependencyExportsGone` | src/lib/bundle/index.ts:195-200 | in a dependency file no export declaration, no `export default <identifier>` and no exported declaration remains |
| `BundlerFacts.AssembleShape` | src/lib/bundle/index.ts:209-226 | for any number of import lines, dependency blocks and entry blocks, when each section begins and ends with a non-space character, the bundle text is the three sections each joined by newlines and placed on their own lines: trimming removes nothing |
| `LegacyBundle.VisitKeeps` | src/bundle.ts:50-90 | the visitor only appends to `removedStatements`; in a dependency it leaves both flags alone, in the entry it can only raise them |
| `LegacyBundle.Transformed` | src/bundle.ts:48-109 | one file's two passes: the list only grows, a dependency leaves the flags as they were, the entry never lowers them |
| `LegacyBundle.Removed` | src/bundle.ts:40-127 | `remove(dep, exp)` keeps the same promises about the shared state |
| `LegacyBundle.Pass` | src/bundle.ts:132-133 | `map(remove)` gives one text per file and only appends to the list; the dependency pass leaves the flags alone |
| `LegacyBundle.Processed` | src/bundle.ts:130-135 | one text per file, dependencies first and the entry last; an empty list leaves the state as it started |
| `LegacyBundle.BundleSpec` | src/bundle.ts:18-150 | `dexport` can only be true when there is an entry file |
| `LegacyBundle.Bundling.constructor` | src/bundle.ts:25-39 | both flags start false and the removed list empty |
| `LegacyBundle.Bundling.Remove` | src/bundle.ts:40-127 | `remove` returns the file's text and updates the closure's flags and list as the specification function says |
| `LegacyBundle.Bundling.RemoveAll` | src/bundle.ts:132-133 | the `map(remove)` loop, in order |
| `LegacyBundle.ProcessAll` | src/bundle.ts:130-135 | the dependency loop, then the entry, from one closure |
| `LegacyBundle.Bundle` | src/bundle.ts:18-150 | the code and `dexport` the specification gives |
| `LegacyBundle.HasExportDecl` | src/bundle.ts:78-80 | a file raises the named-export flag iff some top-level statement is an export declaration |
| `LegacyBundle.HasDefaultIdentifier` | src/bundle.ts:81-86 | a file raises the default-export flag iff some top-level statement exports an identifier as default |
| `LegacyBundle.FlatVisit` | src/bundle.ts:50-90 | on a file whose acted-on nodes are top-level, the visitor empties imports (and, in a dependency, export nodes) in place, appends the import texts in order, and raises a flag iff the entry has such an export |
| `LegacyBundle.FlatRevisit` | src/bundle.ts:91-98 | the second visitor then empties every export declaration that is left |
| `LegacyBundle.DependencyTransformed` | src/bundle.ts:67-76 | a dependency loses its imports, `export { … }` and `export default <identifier>`; the flags are untouched |
| `LegacyBundle.EntryTransformed` | src/bundle.ts:77-108 | the entry loses its imports, and its export declarations too exactly when both flags are raised and the output is not an ES module |
| `LegacyBundle.RemovedDependency` | src/bundle.ts:40-127 | `remove(dep, true)` of such a file is the cleaned text of the emptied file, its import texts appended |
| `LegacyBundle.DependencyPass` | src/bundle.ts:132 | the dependency pass gives each file's emptied text and collects the import texts in file order |
| `LegacyBundle.EntryPass` | src/bundle.ts:133 | the entry's text and the flags it raises |
| `LegacyBundle.LegacyBundleFlat` | src/bundle.ts:130-148 | for flat files: each dependency's text, the entry's text, and the flags set exactly by the entry's own exports |
| `Helpers.SpaceCamel` | src/lib/helpers.ts:3 | step 1 keeps the first character |
| `Helpers.ToLower` | src/lib/helpers.ts:5 | a lowered character is never uppercase |
| `Helpers.ToUpper` | src/lib/helpers.ts:6 | a raised character is never lowercase |
| `Helpers.Lowered` | src/lib/helpers.ts:5 | step 3 lowers every character in place |
| `Helpers.Capitalized` | src/lib/helpers.ts:6 | step 4 raises only the first character |
| `Helpers.SpaceCamelSplits` | src/lib/helpers.ts:3 | step 1 only inserts spaces, and leaves no lowercase letter directly before an uppercase one |
| `Helpers.SpaceCamelKeeps` | src/lib/helpers.ts:3 | without such a pair, step 1 changes nothing |
| `Helpers.SpaceCamelIdempotent` | src/lib/helpers.ts:3 | step 1 applied twice is step 1 |
| `Helpers.SeparateClears` | src/lib/helpers.ts:4 | step 2 leaves no `_`, `-` or `/`, keeps every other non-letter, and changes nothing in a text without separators |
| `Helpers.SpaceCamelOthers` | src/lib/helpers.ts:3 | step 1 keeps the non-letter characters in order |
| `Helpers.LoweredOthers` | src/lib/helpers.ts:5 | step 3 keeps them too |
| `Helpers.SplitCamelCaseShape` | src/lib/helpers.ts:1-8 | the result has no uppercase letter after the first position, no separator, and the original's other characters in order |
| `Helpers.CamelExample` | src/lib/helpers.ts:1-8 | "fooBar" becomes "Foo bar" |
| `Helpers.KebabExample` | src/lib/helpers.ts:1-8 | "my-app" becomes "My app" |
| `Helpers.SeparatorTakesLetter` | src/lib/helpers.ts:4 | as written, a separator followed by a lowercase letter and a space takes the letter with it: "a-bC" becomes "A c" |
| `InitChecks.ExtSpec` | src/init/checks.ts:49-61 | true iff every file has a `.ts`, `.mts`, `.cts` or `.tsx` extension; otherwise the exit reports the first file without one |
| `InitChecks.Ext` | src/init/checks.ts:49-61 | the loop returns at the first bad file, as the specification function says |
| `InitChecks.CountsMeaning` | src/init/checks.ts:64-151 | the ES count is positive iff some file has ES syntax, the CommonJS count iff some file has only CommonJS syntax; together they count every file with either |
| `InitChecks.ModuleTypeSpec` | src/init/checks.ts:63-169 | exits, with its exact message, iff some file uses CommonJS syntax and no ES syntax; otherwise true |
| `InitChecks.ModuleType` | src/init/checks.ts:63-169 | the counting loop and the exit as the specification function says |
| `InitChecks.Combined` | src/init/checks.ts:183-190 | the first exit among the checks ends `make`; otherwise the result is true iff every check returned exactly `true` |
| `InitChecks.Make` | src/init/checks.ts:177-191 | `make` runs ext, moduleType, nodeCheck and types in that order |
| `InitChecks.CombinedFour` | src/init/checks.ts:183-190 | the same for the four checks, written out |
| `InitChecks.MakeTrueIff` | src/init/checks.ts:7-191 | `make` is true iff every extension is valid, no file is CommonJS only, node modules are allowed, and type checking is on and finds nothing |
| `InitChecks.NoCheckIsFalse` | src/init/checks.ts:9-10 | with `noCheck` the types check returns nothing, so `make` is never true, and is false when the other checks pass |
| `InitChecks.ExtExitsFirst` | src/init/checks.ts:49-58 | a file without a TypeScript extension makes `make` exit with the extension message |
| `Config.RepeatsSnoc` | src/lib/init/config.ts:39-47 | one more pass of the loop records the value, quoted, iff it was already stored |
| `Config.RepeatsEmptyIff` | src/lib/init/config.ts:36-48 | no duplicate is recorded iff the export paths are pairwise distinct |
| `Config.RepeatsCount` | src/lib/init/config.ts:39-47 | every path is either stored once or recorded as a repeat |
| `Config.RepeatsMembers` | src/lib/init/config.ts:39-47 | a path appears in the message iff it occurs at least twice |
| `Config.QuotedInjective` | src/lib/init/config.ts:43 | quoting keeps distinct paths distinct |
| `Config.FirstMissing` | src/lib/init/config.ts:57-62 | nothing is reported iff every entry file exists; otherwise the first missing one is, with its message |
| `Config.CheckExist` | src/lib/init/config.ts:57-62 | the existence loop stops at the first missing file |
| `Config.EntriesCheck` | src/lib/init/config.ts:27-63 | `checkEntries` passes iff there is an entry, the export paths are distinct and every entry file exists; no entry and duplicates give their exact messages |
| `Config.CheckEntries` | src/lib/init/config.ts:27-63 | the three checks in order, each of the two loops as written |
| `Config.Points` | src/lib/init/config.ts:85-97 | one point per entry, in order, each with its defaults |
| `Config.Loaded` | src/lib/init/config.ts:80-102 | `getConfig` succeeds iff `checkEntries` passes, and otherwise fails with its message |
| `Config.GetConfig` | src/lib/init/config.ts:80-102 | the point loop and the returned object |
| `Config.PointsFollowEntries` | src/lib/init/config.ts:86-97 | each point keeps its entry's file, export path and tsconfig; the format defaults to "esm", renaming to true unless set false, the output directory to "dist"; the entries can be read back from the points |
| `Config.LoadedIff` | src/lib/init/config.ts:70-103 | loading succeeds iff there is an entry, the paths are distinct and every file exists; then there is one point per entry, missing plugins become `[]`, and `allowUpdatePackageJson` defaults to true |
| `Config.DuplicateDotMessage` | src/lib/init/config.ts:42-51 | two entries exporting "." are refused with `Duplicate export paths/path (".")` |
| `TargetConfig.NodePaths` | src/init/config.ts:32-42 | a path takes part in the duplicate check iff some node target exports it |
| `TargetConfig.EntriesCheck` | src/init/config.ts:20-58 | `checkEntries` passes iff there is an entry, the node export paths are distinct and every entry file exists; no entry and duplicates give their exact messages |
| `TargetConfig.CheckEntries` | src/init/config.ts:20-58 | the three checks in order, each loop as written |
| `TargetConfig.NodePathsSnoc` | src/init/config.ts:32-42 | one more pass of the loop looks only at a node target's path |
| `TargetConfig.AllNormalised` | src/init/config.ts:84-110 | one normalised entry per entry, in order |
| `TargetConfig.Loaded` | src/init/config.ts:79-114 | `getConfig` succeeds iff `checkEntries` passes, and otherwise fails with its message |
| `TargetConfig.GetConfig` | src/init/config.ts:79-114 | the normalisation loop and the returned object |
| `TargetConfig.NormalisedKeeps` | src/init/config.ts:85-109 | an entry keeps its file, tsconfig and target; a node target keeps its export path, its format defaults to "esm" and `allowUpdatePackageJson` to true; a web target is kept; renaming defaults to true; normalising twice is normalising once |
| `TargetConfig.WebEntryIgnored` | src/init/config.ts:33 | a web target never takes part in the duplicate check |
| `TargetConfig.SharedNodePathExits` | src/init/config.ts:32-50 | two node targets with the same export path make loading fail with the duplicate message |
| `TargetConfig.NodePathsMonotone` | src/init/config.ts:32-42 | the node paths keep the entries' order |
| `CompilerOptions.Edited` | src/lib/init/tsCompilerOptions.ts:19-25 | `rootDir` and `module` are removed, `moduleResolution` becomes NodeNext and `outDir` the computed directory; `types`, `lib` and every other option are kept |
| `CompilerOptions.Normalised` | src/lib/init/tsCompilerOptions.ts:29-43 | normalisation touches only `types` and `lib` |
| `CompilerOptions.GetOptions.constructor` | src/lib/init/tsCompilerOptions.ts:8-11 | the point is stored and the options start empty |
| `CompilerOptions.GetOptions.Init` | src/lib/init/tsCompilerOptions.ts:12-26 | `__init` stores the edited options |
| `CompilerOptions.GetOptions.Init2` | src/lib/init/tsCompilerOptions.ts:27-44 | `__init2` stores the edited options and returns them normalised |
| `CompilerOptions.GetOptions.CommonJs` | src/lib/init/tsCompilerOptions.ts:45-49 | the `commonjs` getter: the normalised options with `module` CommonJS |
| `CompilerOptions.GetOptions.Esm` | src/lib/init/tsCompilerOptions.ts:50-54 | the `esm` getter: the normalised options with `module` ES2020 |
| `CompilerOptions.GetOptions.Default` | src/lib/init/tsCompilerOptions.ts:55-57 | the `default` getter: the normalised options |
| `CompilerOptions.GetterOptions` | src/lib/init/tsCompilerOptions.ts:12-54 | every getter gives its module kind, no `rootDir`, NodeNext resolution, the computed `outDir`, `types` holding "node", `lib` starting with "ESNext" without repeats, and the other options as in the tsconfig |
| `CompilerOptions.OutDirOfExportPath` | src/lib/init/tsCompilerOptions.ts:14-17 | export path "." builds into the output directory, "./s" into its sub-directory `s` |
| `CompilerOptions.ModBuildsIntoDistMod` | src/lib/init/tsCompilerOptions.ts:14-17 | "./mod" with "dist" builds into "dist/mod" |
| `CompilerOptions.TypesShape` | src/lib/init/tsCompilerOptions.ts:31-37 | `types` always holds "node"; a given list is kept, with "node" put first only when missing; normalising twice is normalising once |
| `CompilerOptions.LibShape` | src/lib/init/tsCompilerOptions.ts:38-42 | `lib` starts with "ESNext", has no repeats, and holds exactly "ESNext" and the given entries |
| `CompilerOptions.LibIdempotent` | src/lib/init/tsCompilerOptions.ts:38-42 | normalising `lib` twice is normalising once |
| `CompilerOptions.LibKeepsOrder` | src/lib/init/tsCompilerOptions.ts:39 | a list without repeats or "ESNext" keeps its order behind "ESNext" |
| `JsObject.Keys` | src/lib/compile/package.ts:78-88 | an object's keys in insertion order, one per property |
| `JsObject.Get` | src/lib/compile/package.ts:78-88 | reading a key the object lacks gives `undefined` |
| `JsObject.Without` | src/lib/compile/package.ts:78-88 | the rest of a destructuring holds exactly the properties whose keys were not named |
| `JsObject.PutGet` | src/lib/compile/package.ts:116 | a spread assigns each property in turn; after `o[k] = v`, `o[k]` is `v` and every other key reads as before |
| `JsObject.PutKeys` | src/lib/compile/package.ts:116 | assigning an existing key keeps the key order; a new key goes last |
| `JsObject.PutDistinct` | src/lib/compile/package.ts:116 | assignment never gives an object a key twice |
| `JsObject.SpreadGet` | src/lib/compile/package.ts:116 | in `{...a, ...b}` a key of `b` reads as in `b`, any other as in `a` |
| `JsObject.SpreadKeys` | src/lib/compile/package.ts:116 | `{...a, ...b}` starts with `a`'s keys in order and has the keys of both, without repeats |
| `JsObject.SpreadDisjoint` | src/lib/compile/package.ts:120-130 | spreading an object with new keys only appends its properties |
| `JsObject.PutAppends` | src/lib/compile/package.ts:116 | assigning a new key appends it |
| `JsObject.GetConcat` | src/lib/compile/package.ts:120-130 | reading from two runs of properties with distinct keys finds the first |
| `JsObject.WithoutGet` | src/lib/compile/package.ts:78-88 | the rest reads a named key as `undefined` and any other as before |
| `PackageJson.IfTruthy` | src/lib/compile/package.ts:108-110 | `x ? {key: x} : {}` gives at most the one field named `key` |
| `PackageJson.IfGiven` | src/lib/compile/package.ts:97-105 | an output file gives at most the one field named `key` |
| `PackageJson.ExportsMapShape` | src/lib/compile/package.ts:21-54 | the entry is empty iff neither build is complete; otherwise it has the one key given, `import` iff the ES build and its types exist, `require` iff the CommonJS ones do, each pointing at both files |
| `PackageJson.AssembledOrder` | src/lib/compile/package.ts:120-130 | the written object is name, version, description, type, then main, types, module where present, exports, then the remaining fields in their old order |
| `PackageJson.AssembledKeeps` | src/lib/compile/package.ts:78-88 | every field the writer does not name keeps its value |
| `Package.GetExports` | src/package.ts:9-47 | on success there is at most one entry, under "." for the main export or under "./" and the last segment of the output directory |
| `Package.Part` | src/package.ts:74-81 | main, module and types give at most their own field |
| `Package.WritePackage` | src/package.ts:49-106 | the method writes the object the specification function gives, or fails with the thrown message |
| `Package.GetExportsFails` | src/package.ts:10-13 | the error is thrown, with its exact message, iff the export is not the main one and the output directory is missing or holds no separator |
| `Package.SplitLength` | src/package.ts:10 | splitting gives two parts or more iff the separator occurs |
| `Package.SubPathKey` | src/package.ts:14-46 | a sub-path export in `a/…/b` goes under "./b", its paths "./" and the file names as given |
| `Package.MainExportWritten` | src/package.ts:66-77 | the main export: `type` is "module" when the ES build is complete and "commonjs" otherwise; main, module and types are the given file names; exports holds just the new entry under "." |
| `Package.SubPathWritten` | src/package.ts:78-91 | a sub-path export keeps the old `type`, keeps main, module and types when truthy, and merges the new entry over the old exports, the new entry winning |
| `Package.SubPathKeepsNonObjectExports` | src/package.ts:82-87 | an old `exports` that is truthy but not a plain object survives under "." |
| `Package.SubPathEntryNotDot` | src/package.ts:14 | a sub-path entry is never written under "." |
| `Package.WrittenLayout` | src/package.ts:93-103 | the key order, and every field not named keeps its value |
| `CompilePackage.GetExports` | src/lib/compile/package.ts:21-54 | at most one entry, under the export path |
| `CompilePackage.Part` | src/lib/compile/package.ts:96-110 | main, module and types give at most their own field |
| `CompilePackage.WritePackage` | src/lib/compile/package.ts:66-132 | the method writes the object the specification function gives |
| `CompilePackage.GetExportsTargets` | src/lib/compile/package.ts:21-54 | the entry is empty iff neither build is complete; it has `import` iff the ES build and its types exist and `require` iff the CommonJS ones do, each pointing at "./" and the path relative to the working directory |
| `CompilePackage.MainExportWritten` | src/lib/compile/package.ts:90-106 | the main export: `type` becomes "module"; main, module and types come from the output files, relative to the working directory; exports is just the new entry; name, version and description are kept |
| `CompilePackage.SubPathWritten` | src/lib/compile/package.ts:107-118 | a sub-path export: `type` still becomes "module"; main, module and types keep their old truthy values; the old plain-object exports are merged with the new entry, the new entry winning |
| `CompilePackage.SubPathDropsNonObjectExports` | src/lib/compile/package.ts:111-114 | an old `exports` that is not a plain object is dropped |
| `CompilePackage.WrittenLayout` | src/lib/compile/package.ts:120-130 | the key order, and every field not named keeps its value |
| `CheckExports.ExportVisitor.constructor` | src/compiler/checkExports.ts:10-11 | both flags start false |
| `CheckExports.ExportVisitor.Visit` | src/compiler/checkExports.ts:15-77 | one node updates the flags as the visitor's branches say: `defExport` for `export default <identifier>`, an `export default` function or class, or an export assignment of an object literal with an identifier-named property; `nameExport` for an export list or an exported declaration outside a namespace |
| `CheckExports.ExportHooksKeep` | src/compiler/checkExports.ts:15-79 | walking the file never lowers a flag |
| `CheckExports.TopLevelSets` | src/compiler/checkExports.ts:3-86 | a top-level node that sets a flag sets it for the file, wherever it stands and whatever else the file holds |
| `CheckExports.QuietFile` | src/compiler/checkExports.ts:15-77 | a file none of whose nodes, at any depth, is one the visitor reacts to has neither flag |
| `CheckExports.NotCounted` | src/compiler/checkExports.ts:23-56 | `export function f() {}` and `export class C {}` set no flag (they take the default branch and lack `default`), nor does `export = x` |
| `CheckExports.ObjectAssignmentIsDefault` | src/compiler/checkExports.ts:39-48 | an object literal with an identifier-named property is a default export, with or without `=`; one with only a string-named property is not |
| `CheckExports.NamespacedExportNotNamed` | src/compiler/checkExports.ts:51-76 | `export const …` inside a namespace is not a named export of the file, while at the top level it is |
| `ReplaceCjs.ToModuleExports` | src/compiler/replacecjs.ts:32-45 | the rewritten statement no longer matches, so it is never rewritten again |
| `ReplaceCjs.JsKeeps` | src/compiler/replacecjs.ts:19-49 | the JavaScript visitor keeps no state |
| `ReplaceCjs.JsRewritten` | src/compiler/replacecjs.ts:19-49 | each statement is rewritten where it matches and kept otherwise, one for one |
| `ReplaceCjs.JsRewritesDefault` | src/compiler/replacecjs.ts:20-46 | `exports.default = x` becomes `module.exports = x` |
| `ReplaceCjs.JsKeepsOthers` | src/compiler/replacecjs.ts:22-31 | a file without `exports.default = <identifier>` anywhere (another right side, operator or object) comes back unchanged |
| `ReplaceCjs.JsFlatRewritten` | src/compiler/replacecjs.ts:4-53 | when those assignments stand at the top level, `replaceInJs` rewrites exactly them, in place |
| `ReplaceCjs.JsIdempotent` | src/compiler/replacecjs.ts:4-53 | running `replaceInJs` again changes nothing |
| `ReplaceCjs.TsKeeps` | src/compiler/replacecjs.ts:70-84 | the declaration visitor keeps no state |
| `ReplaceCjs.TsRewritten` | src/compiler/replacecjs.ts:70-84 | each `export default e` becomes `export = e`, everything else is kept, one for one |
| `ReplaceCjs.TsFlatRewritten` | src/compiler/replacecjs.ts:55-88 | with export assignments only at the top level, `replaceInTs` turns every `export default e` into `export = e` with the same expression and keeps every other statement |
| `ReplaceCjs.TsIdempotent` | src/compiler/replacecjs.ts:55-88 | running `replaceInTs` again changes nothing |
| `UnusedCode.SpecNames` | src/lib/bundle/unusedCode.ts:55-58 | one local name per named import element, in order |
| `UnusedCode.MarkAllMeaning` | src/lib/bundle/unusedCode.ts:42-45 | after marking names, a name is defined exactly when it was before or was marked, and it is exported exactly when it already was or was marked as exported: an export mark is never lost |
| `UnusedCode.MarkSnoc` | src/lib/bundle/unusedCode.ts:79 | marking a list of names is marking them one after the other |
| `UnusedCode.MarkOne` | src/lib/bundle/unusedCode.ts:42-45 | marking a one-name list is `markDefined` on that name |
| `UnusedCode.Collector.constructor` | src/lib/bundle/unusedCode.ts:39-40 | `defined` and `used` start empty |
| `UnusedCode.Collector.MarkDefined` | src/lib/bundle/unusedCode.ts:42-45 | the map gains the name with the export mark or-ed in; `used` is untouched |
| `UnusedCode.Collector.Definitions` | src/lib/bundle/unusedCode.ts:49-99 | the state after the definitions half of `collect` is the one the first-pass specification gives |
| `UnusedCode.Collector.DefineImport` | src/lib/bundle/unusedCode.ts:50-65 | an import clause defines its default, named and namespace names, none exported |
| `UnusedCode.Collector.DefineVars` | src/lib/bundle/unusedCode.ts:71-80 | a variable statement defines every bound name, nested patterns included, with the statement's export mark |
| `UnusedCode.Collector.Usage` | src/lib/bundle/unusedCode.ts:101-115 | an identifier that is not a declaration name is added to `used`; nothing else changes |
| `UnusedCode.CollectKeeps` | src/lib/bundle/unusedCode.ts:48-120 | every step of the first pass only adds names to `defined` and `used` and never clears an export mark |
| `UnusedCode.DefineGrows` | src/lib/bundle/unusedCode.ts:49-99 | the definitions half at one node only grows the state |
| `UnusedCode.UnusedNames` | src/lib/bundle/unusedCode.ts:122-128 | a name is unused exactly when it is defined, not used, and not an exported name kept by `treatExportsAsUsed` |
| `UnusedCode.KeptNamed` | src/lib/bundle/unusedCode.ts:164-166 | the kept named elements are exactly those whose name is not unused, never more than there were |
| `UnusedCode.KeptNamedAll` | src/lib/bundle/unusedCode.ts:164-175 | every named element is kept exactly when none is unused, and then the list is the original |
| `UnusedCode.KeptNamedNames` | src/lib/bundle/unusedCode.ts:164-166 | the names of the kept elements are the element names with the unused ones filtered out, in order |
| `UnusedCode.Filter` | src/lib/bundle/unusedCode.ts:164-166 | the result holds exactly the names not in the unused set |
| `UnusedCode.FilterSnoc` | src/lib/bundle/unusedCode.ts:164-166 | filtering a list with one more name appends that name when it is used |
| `UnusedCode.FilterAppend` | src/lib/bundle/unusedCode.ts:164-166 | filtering distributes over concatenation |
| `UnusedCode.FilterAll` | src/lib/bundle/unusedCode.ts:172-175 | a list with no unused name is unchanged |
| `UnusedCode.RemoveKeeps` | src/lib/bundle/unusedCode.ts:136-233 | the removal visitor keeps no state |
| `UnusedCode.ClearUnusedCode` | src/lib/bundle/unusedCode.ts:26-240 | the method runs the first pass over the whole file, computes the unused names, then runs the removal pass |
| `UnusedCode.AtTopLevel` | src/lib/bundle/unusedCode.ts:117-120 | whatever the walk has gathered by the end of a top-level statement is still there at the end of the file |
| `UnusedCode.DefinedFirst` | src/lib/bundle/unusedCode.ts:48-117 | a node's own definitions survive the walk of its children |
| `UnusedCode.TopLevelDefined` | src/lib/bundle/unusedCode.ts:49-99 | every name a top-level statement defines is in the final map, and an exported declaration's names are marked exported |
| `UnusedCode.ExprStmtUses` | src/lib/bundle/unusedCode.ts:101-117 | the identifier a statement's expression is, or calls, is a use |
| `UnusedCode.TopLevelUsed` | src/lib/bundle/unusedCode.ts:101-120 | such an identifier at the top level is in the final `used` set |
| `UnusedCode.ImportKeptNames` | src/lib/bundle/unusedCode.ts:138-208 | an import goes exactly when all its names are unused; otherwise one import with the same specifier remains, binding exactly the used names in order; with every name used it is the original node; a rebuilt clause is never type-only |
| `UnusedCode.ImportDropped` | src/lib/bundle/unusedCode.ts:160-170 | an import is dropped exactly when none of its names is used |
| `UnusedCode.AllUsedNoChange` | src/lib/bundle/unusedCode.ts:172-175 | with every name used nothing needs a change |
| `UnusedCode.NoChangeAllUsed` | src/lib/bundle/unusedCode.ts:172-175 | and nothing needs a change only when every name is used |
| `UnusedCode.RebuiltNames` | src/lib/bundle/unusedCode.ts:176-204 | the rebuilt clause binds exactly the used names, in their order |
| `UnusedCode.FlatRemove` | src/lib/bundle/unusedCode.ts:136-235 | on a file whose statements contain no nested declarations, the removal pass handles each top-level statement on its own |
| `UnusedCode.DeclarationSurvives` | src/lib/bundle/unusedCode.ts:210-230 | a named function, class or variable statement survives exactly when it was there and one of its names is used |
| `UnusedCode.LoneFunction` | src/lib/bundle/unusedCode.ts:81-89 | a file holding only a function defines it, uses nothing, and loses it unless it is exported and exports count as used |
| `UnusedCode.DefineFunction` | src/lib/bundle/unusedCode.ts:81-89 | a named function declaration marks its name, exported when it carries `export` |
| `UnusedCode.FuncWalk` | src/lib/bundle/unusedCode.ts:81-117 | a function is defined before its body is walked |
| `UnusedCode.CallWalk` | src/lib/bundle/unusedCode.ts:101-117 | a call `g()` as a statement adds `g` to `used` and nothing else |
| `UnusedCode.NotAFixpoint` | src/lib/bundle/unusedCode.ts:26-240 | one run removes an unused `f` but keeps the `g` only `f` calls; a second run then removes `g`: the result is not a fixpoint |
| `UnusedCode.FirstPass` | src/lib/bundle/unusedCode.ts:117-120 | the first pass over that file defines `f` and `g` and uses only `g` |
| `UnusedCode.FirstPassG` | src/lib/bundle/unusedCode.ts:81-89 | the first pass over `function g() {}` defines `g` only |
| `UnusedCode.FirstPassF` | src/lib/bundle/unusedCode.ts:81-117 | the first pass over `function f() { g(); }` defines `f` and uses `g` |
| `UnusedCode.RenamedImport` | src/lib/bundle/unusedCode.ts:101-170 | `import { a as b }` uses `a`, since the property name is not a declaration name; the import is dropped exactly when `a` and `b` differ |
| `UnusedCode.RenamedImportCollect` | src/lib/bundle/unusedCode.ts:50-115 | the first pass over that import defines `b` and uses `a` |
| `UnusedCode.RenamedSpecWalk` | src/lib/bundle/unusedCode.ts:101-117 | walking its one element adds `a` to `used` |

## Left out

- Parsing and printing TypeScript are the model's boundary: files are `Ast` statement lists, and the text `bundleCreator` prints is a function of the tree, not a pretty-printer.
- The `Ast` covers only a subset of TypeScript syntax. It has no `if`, `for`, `while`, `switch`, `try` or labelled statement, and parameters and binding elements have no default value, so no member can be given a file that uses them.
- DuplicateCollect.WalkStmt: cannot see a declaration nested in a control-flow statement at the top level. duplicateCollection.ts:55-77 opens a local scope only at a block, a function, an arrow, a method or a class, and visits every other node with `isGlobalScope` unchanged. So `if (c) var a = 1;` or `switch (k) { case 1: const a = 1; }` at the top level records `a` as a global name. Two such files make index.ts:129-140 report `a` and exit when renaming is off. `BundlerFacts.CollectedDuplicate` is stated only for files the `Ast` can hold.
- File-system reads and writes, `fs.existsSync`, timers, waits and logging become parameters or messages in a `Result`; `process.exit` becomes an error result that carries the message.
- `process.cwd()` and `path.relative` take the working directory as a parameter; `path.sep` is taken to be `/`.
- `JSON.parse` and `JSON.stringify` are not modelled: manifest values are `JsObject` values. A property whose value is `undefined` stays in the value, although `JSON.stringify` would leave it out of the written file.
- Manifest objects are assumed to have distinct keys, as `JSON.parse` produces them: the manifest lemmas require `DistinctKeys`.
- The duplicate map given to the renaming passes is a JavaScript `Map`, so its keys are distinct: the plan lemmas require `KeysDistinct`.
- Post-process hook plugins (minify, banner) are opaque functions on text and are not modelled.
- The compiler drivers (`ts.createProgram`, the compiler host, the emit and its diagnostics) are not modelled; diagnostics are a parameter where a check reads them.
- Configuration discovery (`getConfigPath`, dynamic `import` of the config file) is not modelled; the loaders start from the loaded object.
- The dependency graph (topological order and the built-in module report) is an input list, dependencies first and the entry last.
- `resolves().concurrent()` in the checks runs its promises concurrently; the model evaluates them in order, which gives the same combined answer since the checks share no state.
- `ts.factory.createNotEmittedStatement` is modelled as an `Empty` statement that the printer drops.
- Two regular expressions are modelled as written, with their effects proved and no corrected version used: `/^s*;\s*$/gm` in `bundleCreator` begins with a literal `s`, not `\s` (`BundleCreator.IndentedSemicolonKept`, `BundleCreator.LetterSLineDeleted`); in `splitCamelCase`, the group `([a-z] || [A-Z])` after a separator is an alternation whose first branch is a lowercase letter followed by a space, so such a letter is deleted along with the separator (`Helpers.SeparatorTakesLetter`).
- `moduleType`'s count of statements it cannot classify is not reached on a parsed tree, so only the counts of ESM and CommonJS statements are modelled.
- `importsAll`'s module-level arrays are never cleared between bundles; the class `ImportsAll.ImportsAllState` keeps them as fields, and nothing resets them.
- The sources of the import merger and remover (`mergeImportsStatement.js` and `visitors/removeImports.js`, imported at src/lib/bundle/index.ts:13 and :26, and `./mergeImports`, imported at src/bundle.ts:5) are not part of this model; the `mergeImports` and `removeImports` of the compiled `dist/index.mjs` stand in for them.
- RemoveExports.RemoveExportsIdempotent and RemoveExports.NothingExportedLeft are proved only for files whose export syntax stands at the top level of the file or of a namespace body, as the TypeScript grammar requires.
- CommonJsExports.CjsIdempotent is proved for files whose `exports.x = …` assignments stand at the top level only.
- ReplaceCjs.JsFlatRewritten, ReplaceCjs.JsIdempotent, ReplaceCjs.TsFlatRewritten and ReplaceCjs.TsIdempotent are proved for files where the rewritten statements stand at the top level; `ReplaceCjs.JsKeepsOthers` covers every file.
- RemoveImports.FlatRemoved and RemoveImports.FlatFile describe only files whose import declarations all stand at the top level.
- LegacyBundle.FlatVisit, LegacyBundle.FlatRevisit, LegacyBundle.DependencyTransformed, LegacyBundle.EntryTransformed, LegacyBundle.RemovedDependency, LegacyBundle.DependencyPass, LegacyBundle.EntryPass and LegacyBundle.LegacyBundleFlat characterise flat files only; on other files the visitor is still modelled node for node.
- UnusedCode.FlatRemove describes the removal pass statement by statement only for files whose imports, named functions and classes and variable statements all stand at the top level; the pass itself is modelled on every file.
- `CheckExports`: an `export = { … }` object literal counts as a default export, as the code does.
- BundleCreator.Created: the records between stages hold statement lists, not printed text, so the deletion of lines matching `/^s*;\s*$/gm` that bundleCreator.ts:22 runs after every stage is modelled as dropping top-level empty statements only; a top-level expression statement printed as `s;` or `ss;` (an identifier made only of the letter `s`) is deleted by the source after each stage but kept by the model until the final `Clean`, which by then may no longer match it if a later stage renamed it. The deletion itself is modelled on text by `BundleCreator.StripSemicolonLines`.

The end-to-end members below compose the intended behaviour of the stages that the Findings table shows to differ from the code as written; each as-written variant is modelled and the difference proved by the lemma named there.

- DuplicateImports.Duplicates: renames a duplicated import binding where it is used in a variable initializer; duplicate.ts:98-119 treats such an identifier as a declaration name and leaves it (`DuplicateImports.InitializerKeptAsWritten`).
- Anonymous.ImportStmt: looks the export list up under `ImportKey`, the specifier value cut at its first dot; anonymous.ts:443-446 cuts the quoted source text, so for `"./m"` the source's key is `m"`, finds no entry and rebinds nothing (`Anonymous.QuotedKeyKeepsQuote`).
- Anonymous.ImportFile: walks with `Anonymous.ImportStmt`, so it rebinds the default import of an extension-less relative specifier that the source, keying on the quoted text, leaves alone.
- Anonymous.DefaultImportRebound: the rebinding is proved for the `ImportKey` lookup; with the quoted key of anonymous.ts:443-446 an extension-less specifier finds no entry and keeps its binding.
- Anonymous.ImportPass: runs the import visitor with the `ImportKey` lookup, not the quoted key of anonymous.ts:443-446.
- Anonymous.AnonymousNames.ImportHandler: its loop equals `Anonymous.ImportPass`, so it uses the `ImportKey` lookup, not the quoted key of anonymous.ts:443-446.
- Anonymous.AnonymousNames.Handle: runs the import handler with the `ImportKey` lookup, so its outcome is the intended `anonymousHandler`'s.
- Anonymous.UseRebound: the rebinding of a use holds for the `ImportKey` lookup; as written, the binding of `"./m"` is not rebound.
- Anonymous.ImportPhase: proves the importer's binding renamed under the `ImportKey` lookup; as written, the key of `"./m"` is `m"` and the binding keeps its name.
- Anonymous.CallPhase: depends on the import phase having recorded the importer, which the quoted key of anonymous.ts:443-446 prevents for an extension-less specifier.
- Anonymous.ExportImportCall: the stated end result, import and call both using the generated name, is the intended one; as written, the quoted key finds no entry and both keep the original name.
- MergeImports.MergeImports: merges with the corrected type-only test (an import is type-only when `type` follows `import` as a keyword); dist/index.mjs:108 tests for the substring `import type` anywhere (`MergeImports.MergedAsWritten`, `MergeImports.TypePrefixedDefaultMisread`).
- MergeImports.ReadImports: fills its tables from the corrected classification, not the substring test of dist/index.mjs:108.
- Bundler.RenameStages: gives the export stage the call stage's renames; src/lib/bundle/index.ts:83-89 passes the two still-empty maps (`Bundler.RenameStagesAsWritten`, `BundlerFacts.ExportWiringAsWritten`).
- Bundler.RunRename: is proved equal to `Bundler.RenameStages`, the intended wiring, not that of src/lib/bundle/index.ts:83-89.
- Bundler.AnonymousStages: hands the import stage the export stage's list; src/lib/bundle/index.ts:168-174 passes `exportDefaultImportNameMap` in both slots (`Bundler.AnonymousStagesAsWritten`, `BundlerFacts.AnonymousWiringAsWritten`).
- Bundler.RunAnonymous: is proved equal to `Bundler.AnonymousStages`, the intended wiring, not that of src/lib/bundle/index.ts:168-174.
- Bundler.AnonImportPass: keys on the specifier value (`ImportKey`), not the quoted text that anonymousImport.ts:15-16 cuts.
- Bundler.RunAnonImport: is proved equal to `Bundler.AnonImportPass`, so it inherits the `ImportKey` lookup.
- Bundler.RunFinish: merges with `MergeImports.MergeImports`, whose type-only test is the corrected one, not the substring test of dist/index.mjs:108.
- Bundler.BundleSpec: composes `Bundler.RenameStages`, `Bundler.AnonymousStages`, the `ImportKey` lookup and the corrected merge, the intended pipeline, not src/lib/bundle/index.ts:83-89 and 168-174 as written.
- Bundler.NameSources.BundlePoint: is proved equal to `Bundler.BundleSpec`, so the outcome it promises is the intended pipeline's.
- Bundler.NameSources.Bundle: runs `Bundler.BundleSpec`, the intended pipeline, for each entry point.
- LegacyBundle.BundleSpec: merges with the corrected type-only test, where src/bundle.ts:143 calls `mergeImports` with the substring test of dist/index.mjs:108.
- LegacyBundle.Bundle: returns the code of `LegacyBundle.BundleSpec`, merged with the corrected type-only test.

## Findings

| source | as written | input that shows it | evidently intended | confidence | as-written member | corrected member |
|---|---|---|---|---|---|---|
| src/lib/bundle/duplicatesNew.ts:55-67 | `visit` returns the node after a function, method or class, and `ts.forEachChild` stops at the first child whose callback returns a value, so the walk of a file ends at its first top-level function or class | a file `function f() {}` then `const g = …`: `g` is never recorded for the file | every top-level declaration of every file is recorded | not executed | `DuplicateCollect.CollectAsWrittenMisses` | `DuplicateCollect.CollectKeyedLast` |
| src/lib/bundle/index.ts:82-89 | the export visitor's call and import slots get `importNameMap` and `exportNameMap`, both still empty (the call stage only reads its maps), so it renames nothing and records nothing; the import stage after it then finds nothing either | any bundle with a duplicated name that a file exports with `export { b }` | the export stage reads the renames of the call stage and rewrites `export { b }` to the new name | not executed | `BundlerFacts.ExportWiringAsWritten` | `BundlerFacts.ExportStageRenames` |
| src/lib/bundle/index.ts:168-174 | the anonymous import stage is given `exportDefaultImportNameMap` for both maps, so it never sees the names the export stage gave | `import x from "./m"` of a module whose anonymous default was named | the import is rebound to the generated name | not executed | `BundlerFacts.AnonymousWiringAsWritten` | `BundlerFacts.AnonymousImportRebinds` |
| src/lib/bundle/anonymous.ts:443-446 | the import key is cut from the specifier's source text, quotes included, so `"./m"` gives the key `m"` | `import x from "./m"` | the key `m`, the same as the exporter `m.ts` is recorded under | not executed | `Anonymous.QuotedKeyKeepsQuote` | `Anonymous.ImportKeyOfSibling` |
| src/lib/bundle/duplicate.ts:98-119 | `isDeclarationName` looks only at the parent's kind, so an initializer (whose parent is a variable declaration) counts as a declaration name | `const v = a` where `a` is a renamed import: `a` keeps its name while other uses are renamed | every use of a renamed binding is renamed | not executed | `DuplicateImports.InitializerKeptAsWritten` | `DuplicateImports.ExprUseIntended` |
| dist/index.mjs:108 | an import is taken as type-only when its text contains `import type` anywhere | `import typeorm from "typeorm";` comes back as `import type typeorm from "typeorm";` | only `import type …` with `type` as a keyword is type-only | not executed | `MergeImports.TypePrefixedDefaultMisread` | `MergeImports.ClassifyDefaultImport` |
