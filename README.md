# ecs-deploy-cli configuration and manifest core, in Dafny

This project models the logic of ecs-deploy-cli that turns configuration into a
deployment. It has three parts:

- **The layered configuration loader** of `src/config.helper.ts` (module
  `ConfigHelper`). `loadConfig` takes one stage of the YAML document, with
  `environment: {}` and `env_files: []` as defaults. It builds the environment
  dictionary in three tiers: `config.environment`, then the dotenv files in
  listed order, then the process environment. It adds to the process
  environment only the variables that are missing there. `loadEnvironmentIntoConfig`
  then writes every `app__a__b=v` variable into the tree at `a.b`:
  - missing maps are created;
  - walking into an array, walking through a scalar, or overwriting a map or
    array with a scalar throws one of three distinct errors.
- **The older loader** of `src/config.ts` (module `LegacyConfig`). It is a separate
  algorithm:
  - `delimitedStringToObject` and `env2obj` build trees from `a__b` keys;
  - the generic `mergeDeep` lets a truthy scalar survive an incoming map and
    overwrites arrays;
  - `obj2env` and `env2record` flatten a tree to `a__b=v` lines and back;
  - `getSecretsForECS` reads the keys ending in `__FROM` as secrets.
- **The `build-env` command** of `src/commands/build-env.ts` (module `BuildEnv`).
  - It fills the environment record: `DOCKER_` variables, `IMAGE_TAG`, the
    account, region and repository with their fallbacks, `IMAGE_URL`, the
    build item's keys, prefixed build args and the deploy target.
  - It selects a task definition by name or target.
  - It rewrites each configured container of the resolved template: image,
    stage guard, environment pairs with `STAGE` and `VERSION` forced, and
    secrets merged by name with the configuration winning.

Shared modules:

- `Dict` is an ordered dictionary (`seq<(string, V)>`) with the insertion order of
  JavaScript objects. Assignment replaces a value in place or appends it.
  `Assign` is `Object.assign` or spread; `AddMissing` is a first-writer-wins write;
  `Remove` is `delete`.
- `ConfigTree` is the configuration tree `Node = Scalar | Branch | List` with
  path lookup. It also gives a node's own properties as JavaScript enumerates,
  indexes and spreads them: a mapping's entries, or a string's characters and
  a list's items under the decimal keys `0`, `1`, ....
- `Strings` holds `split("__")`/`join("__")`, `split("=")`, ASCII case folding
  and the decimal array-index keys.
- `Wrappers` holds `Option` and `Result`.

Inputs and outputs are explicit:

- The file system becomes parameters: maps from file names to parsed YAML trees
  and to parsed dotenv dictionaries.
- The process environment is an input, and the updated environment is an
  output.
- The collaborators that are not part of this model become uninterpreted function fields of
  `BuildEnv.Collaborators`: `resolveBuildargs`, `resolveResource`, `resolveEnvDict`,
  `resolveSSMPath` and the JSON serialisation of the manifest.
- The process environment `BuildEnv` reads is the one in place after the
  configuration has been loaded. The loader that runs before it may already
  have added variables; that loader is not part of this model.

In the container rewrite, the template secrets that have a name and a
`valueFrom` seed the secrets dictionary in template order, keyed by name. A
template secret's `valueFrom` is optional, with `undefined` modelled as `None`.

Where the source mutates state, the model is imperative:

- the walking loop of `loadEnvironmentIntoConfig`;
- the process-environment loops;
- `mergeDeep`, `obj2env` and `deepValue`;
- the env-record loops of `buildEnv`;
- the in-place rewrite of the template's containers, which runs over an
  `array`.

Every method is proved equal to a specification function. The properties are
lemmas about those functions.

## Model

| member | source | states |
|---|---|---|
| ConfigHelper.ValuePath | src/config.helper.ts:85-100 | a key that starts or ends with `__` is skipped; an applied key yields a non-empty path whose first segment is not `environment` or `env_files`, and the key is the prefix, `__` and the path joined by `__` (just the joined path when the prefix is disabled) |
| ConfigHelper.PrefixedKeyApplies | src/config.helper.ts:90-100 | with prefix `app`, a key `app__rest` that does not end in `__` and whose first remaining segment is not reserved is applied at exactly `split(rest)`: the prefix segment is dropped |
| ConfigHelper.WalkAndSet | src/config.helper.ts:102-149 | the walk down the tree with its `while` loop computes exactly the single-key write `SetAtPath`, errors included |
| ConfigHelper.LoadEntry | src/config.helper.ts:85-149 | one iteration of the entry loop: a skipped key leaves the tree unchanged, an applied one is walked and set |
| ConfigHelper.LoadEnvironmentIntoConfig | src/config.helper.ts:78-152 | processes the entries in order, the first failing entry's error is the result, otherwise the tree after all writes |
| ConfigHelper.SetAtPathOutcome | src/config.helper.ts:103-148 | the walk succeeds iff no scalar or array lies on a proper prefix of the path and no map or array sits at its end; it fails with "change config array" iff the first obstacle is an array, "change config structure" iff it is a scalar, "override config structure" iff the path is clear and ends at a map or array |
| ConfigHelper.SetAtPathOnEmpty | src/config.helper.ts:110-115 | writing a path into an empty tree creates the nested maps: `app__a__b=v` into `{}` gives `{a:{b:"v"}}` |
| ConfigHelper.SetAtPathFrame | src/config.helper.ts:136-148 | after a successful write the path holds the new scalar (an old scalar is overwritten), and every path that is not a prefix of it reads as before |
| ConfigHelper.SetAtPathNoop | src/config.helper.ts:136-148 | writing a value a path already holds returns the tree unchanged |
| ConfigHelper.ScalarBlocksWrite | src/config.helper.ts:117-131 | a scalar on a proper prefix of the path makes the write fail |
| ConfigHelper.MergeEnvErrPersists | src/config.helper.ts:85-150 | once an entry fails, later entries do not change the error thrown |
| ConfigHelper.MergeEnvLeaves | src/config.helper.ts:85-150 | after a successful merge each applied variable's value sits at its path |
| ConfigHelper.MergeEnvIdempotent | src/config.helper.ts:78-152 | merging the same environment a second time changes nothing |
| ConfigHelper.MergeEnvConflict | src/config.helper.ts:117-131 | a configured scalar on a proper prefix of any applied key's path makes the whole merge fail |
| ConfigHelper.ScalarPersistsMerge | src/config.helper.ts:136-148 | a successful merge never turns a scalar into a structure |
| ConfigHelper.MergeEnvKeepsReserved | src/config.helper.ts:83-100 | `environment` and `env_files` at the root are untouched by any successful merge |
| ConfigHelper.MergeEnvStep | src/config.helper.ts:85-150 | the merge of one more entry is the previous merge followed by that entry |
| ConfigHelper.AddMissingToProcessEnv | src/config.helper.ts:58-63 | the loop over the environment's entries computes `AddMissing`: only undefined variables are added |
| ConfigHelper.LoadConfig | src/config.helper.ts:29-68 | the loader computes the ambient environment afterwards and the configuration or error of `LoadConfigSpec` |
| ConfigHelper.LoadConfigErrors | src/config.helper.ts:29-68 | an empty root or stage throws "Stage not defined", a missing configuration file throws, both leaving the ambient environment alone; a merge error is the error of the path merge over the built environment |
| ConfigHelper.StageConfigGet | src/config.helper.ts:38-43 | the stage config has the stage's value for every key it defines, else the defaults `environment: {}` and `env_files: []`, which come first in key order |
| ConfigHelper.EnvironmentPrecedence | src/config.helper.ts:45-56 | each variable takes its value from the process environment, else the dotenv files, else `config.environment`; the result has distinct keys |
| ConfigHelper.ReadEnvFilesOutcome | src/config.helper.ts:50-52 | reading the dotenv files succeeds iff every listed file exists; otherwise the error names the first missing one |
| ConfigHelper.ReadEnvFilesLastWins | src/config.helper.ts:50-52 | a variable's value is the one from the last listed file that defines it, and it is absent only if no file defines it |
| ConfigHelper.ReadEnvFilesAll | src/config.helper.ts:50-52 | the tier is the spread of the listed files in order |
| ConfigHelper.LoadConfigAmbient | src/config.helper.ts:58-63 | the ambient environment keeps every existing variable and its order and value; a variable gets the built environment's value when the load gets that far; after an early error the ambient environment is unchanged |
| ConfigHelper.LoadConfigLeaves | src/config.helper.ts:29-68 | after a successful load each `app__` variable of the environment is in the tree at its path, and the reserved roots are those of the stage config |
| ConfigHelper.LoadConfigAmbientWins | src/config.helper.ts:45-65 | a variable defined in the process environment is the value that ends up in the configuration tree |
| LegacyConfig.DelimitedStringToObjectSpec | src/config.ts:102-106 | `a__b__c` with value `v` builds a map that holds `v` at path `[a, b, c]` and nothing off that path |
| LegacyConfig.WrapHead | src/config.ts:102-106 | the fold from the right nests the first segment outermost |
| LegacyConfig.MergeDeep | src/config.ts:162-178 | the in-place deep merge computes `Merge(target, source)` |
| LegacyConfig.MergeKey | src/config.ts:167-174 | one key of the loop: a map value creates `{}` for a falsy target value and merges into it, any other value replaces the target's |
| LegacyConfig.MergeGet | src/config.ts:154-174 | for each key: absent in the source keeps the target's value; a non-map source value (a scalar or an array) replaces it; a map merges into `{}` when the target's value is falsy, into a target map recursively, and leaves a truthy target scalar unchanged |
| LegacyConfig.MergeIntoEmpty | src/config.ts:162-178 | merging a tree with distinct keys into `{}` copies it |
| LegacyConfig.MergeEntriesDistinct | src/config.ts:167-174 | the merge never duplicates a key |
| LegacyConfig.Env2ObjSingle | src/config.ts:145-152 | a one-variable environment becomes that variable's delimited tree |
| LegacyConfig.Env2ObjRoots | src/config.ts:145-152 | every root key of the built tree is the first segment of some variable |
| LegacyConfig.Env2ObjDistinct | src/config.ts:145-152 | the built tree never repeats a key |
| LegacyConfig.DeepValue | src/config.ts:180-185 | the indexing loop computes `DeepValueSpec`, indexing `undefined` being a `TypeError` |
| LegacyConfig.DeepValueSingle | src/config.ts:180-185 | for a key without `__` the lookup returns that key's value |
| LegacyConfig.Obj2Env | src/config.ts:108-124 | the recursive flattening with its accumulating loop over the keys `for...in` visits (a mapping's keys, a string's or list's indices) computes `Lines` |
| LegacyConfig.IndexedLines | src/config.ts:108-124 | a string or a list flattens without error to exactly one line per index, in index order, the line for index `i` being `i=` followed by the character or item there |
| LegacyConfig.IndexedValue | src/config.ts:180-185 | `deepValue` of a string or list at the decimal key of an index is the element at that index |
| LegacyConfig.Obj2EnvString | src/config.ts:108-124 | the string `"ab"` flattens to the lines `0=a` and `1=b` |
| LegacyConfig.LegacyIndexedStage | src/config.ts:18-49 | a stage that is a string or a list has no `environment` or `env_files` and is not merged into, so it is loaded unchanged |
| LegacyConfig.LinesOfErrPersists | src/config.ts:108-124 | an error thrown at one key ends the flattening |
| LegacyConfig.Obj2EnvDelimitedKeyThrows | src/config.ts:120 | for `{"a__b": "x"}` the leaf key is re-split by `deepValue`, `obj.a` is undefined, and flattening throws |
| LegacyConfig.Obj2EnvDelimitedKeyReads | src/config.ts:120 | for `{"a": "y", "a__b": "x"}` the re-split lookup reads a property of the string `"y"`, so the lines are `a=y` and `a__b=undefined` and `x` is lost |
| LegacyConfig.PlainLines | src/config.ts:108-124 | on a tree whose keys have no `__` or `=`, flattening succeeds; every line is the `path=value` line of a non-map leaf, path joined by `__`; every such leaf has its line; and no line occurs twice |
| LegacyConfig.LinesUnique | src/config.ts:108-124 | on such a tree, and on any string or list, flattening never writes the same line twice, because each line starts with the key it was written for and keys do not repeat |
| LegacyConfig.PrefixedUnique | src/config.ts:114-116 | prefixing the lines of a sub-map with its key and `__` keeps distinct lines distinct |
| LegacyConfig.Env2RecordGet | src/config.ts:126-135 | a key is in the record iff some line has it before its first `=`; its value is the one from the last such line |
| LegacyConfig.LineFields | src/config.ts:126-135 | for a line `k=rest` the key is `k` and the value is the text between the first and second `=` |
| LegacyConfig.FlattenRoundTrip | src/config.ts:53-59 | flattening a tree to lines and reading them back as a record gives every scalar leaf without `=` under its joined path |
| LegacyConfig.SecretsOfSpec | src/config.ts:61-73 | the secrets are exactly the lines whose key ends in `__FROM` in any case, with the suffix stripped |
| LegacyConfig.SecretsOfAppend | src/config.ts:61-73 | the secrets of two runs of lines, one after the other, are the secrets of the first followed by those of the second |
| LegacyConfig.SecretsOfOrder | src/config.ts:61-73 | for every split point, the secrets of the lines are those before the split followed by those after it, so order and multiplicity are kept |
| LegacyConfig.SecretsOfOne | src/config.ts:61-73 | one line yields its own secret when its key ends in `__FROM` in any case, and nothing otherwise |
| LegacyConfig.PlainSecret | src/config.ts:61-73 | a leaf `a__b__FROM` (any case) with value `v` yields the secret named `a__b` with `valueFrom` `v` |
| LegacyConfig.PushToProcessEnv | src/config.ts:137-143 | the loop writes a variable only if it is undefined in the process environment |
| LegacyConfig.MergeableEntriesSpec | src/config.ts:43-47 | the merged variables are exactly those whose key contains `__` and does not start with `__` |
| LegacyConfig.MergeableEntriesAppend | src/config.ts:43-47 | the filter of two runs of variables, one after the other, is the filter of the first followed by that of the second |
| LegacyConfig.MergeableEntriesOrder | src/config.ts:43-47 | for every split point the filter is that of the prefix followed by that of the rest, and one variable stays exactly when it is mergeable, so order and multiplicity are kept |
| LegacyConfig.AssignFiles | src/config.ts:27-31 | the loop over `env_files` computes `FilesOnto`, and a missing file throws |
| LegacyConfig.FilesOntoGet | src/config.ts:27-31 | a variable takes its value from the last listed file that defines it, else keeps its `environment` value |
| LegacyConfig.FilesOntoFound | src/config.ts:27-31 | a successful read means every listed file exists |
| LegacyConfig.FilesOntoErrPersists | src/config.ts:27-31 | the first missing file ends the loop |
| LegacyConfig.CollectEnvironment | src/config.ts:20-33 | collects `environment` and the files; when that succeeds, the stage tree has lost its truthy `environment` and `env_files` keys |
| LegacyConfig.StrippedGet | src/config.ts:22-33 | `environment` and `env_files` survive the deletion only when they are falsy |
| LegacyConfig.LegacyEnvPrecedence | src/config.ts:22-35 | the process environment wins over the files and `environment` |
| LegacyConfig.LegacyLoadConfig | src/config.ts:11-51 | the loader computes the ambient environment and the tree of `LegacyLoadSpec` |
| LegacyConfig.LegacyLoadAmbient | src/config.ts:35-37 | the ambient environment keeps every existing variable; it gains the built environment's values when the load gets that far, and is unchanged otherwise |
| LegacyConfig.LegacyLoadReserved | src/config.ts:22-49 | a reserved root in the result is either a falsy original value or comes from a merged variable |
| LegacyConfig.GetConfigForECS | src/config.ts:53-59 | the flattened record of the loaded tree, or the error of loading or flattening |
| BuildEnv.BuildEnv | src/commands/build-env.ts:13-202 | the command computes `BuildEnvSpec`: the env-record step, then a task-definition step |
| BuildEnv.ResolveHead | src/commands/build-env.ts:40-86 | the env-record step with its loops computes `HeadEnv` |
| BuildEnv.CopyDockerVars | src/commands/build-env.ts:40-46 | the loop over the process environment computes the `DOCKER_` copy |
| BuildEnv.DockerVarsGet | src/commands/build-env.ts:42-46 | the copy has each `DOCKER_` variable with its value, and no other variable |
| BuildEnv.AddBuildArgs | src/commands/build-env.ts:74-78 | the build-args loop computes `WithBuildArgs` |
| BuildEnv.WithBuildArgsGet | src/commands/build-env.ts:74-78 | each build arg `k` is under `ECS_DEPLOY_DOCKER_ARGS_k` with its value |
| BuildEnv.WithBuildArgsFrame | src/commands/build-env.ts:74-78 | keys without that prefix are untouched |
| BuildEnv.FindBuild | src/commands/build-env.ts:51-53 | the index of the first build item with the given name, or none |
| BuildEnv.HeadEnvIdentity | src/commands/build-env.ts:48-86 | after a successful env-record step, each identity, build-item and target key holds its resolved value |
| BuildEnv.BuildEnvIdentity | src/commands/build-env.ts:51-86 | "accountId not defined" without a build-item or config account, then "region not defined" likewise, then "repoName not defined" without the selected item's repository; on success `IMAGE_URL` is `{account}.dkr.ecr.{region}.amazonaws.com/{repo}:{release}` and the other keys hold their values |
| BuildEnv.BuildEnvDockerVars | src/commands/build-env.ts:40-46 | in the final record every `DOCKER_` key has the process environment's value |
| BuildEnv.BuildEnvBuildArgs | src/commands/build-env.ts:74-78 | in the final record every build arg is under its prefixed key |
| BuildEnv.FindTaskDefinition | src/commands/build-env.ts:89-92 | the index of the first task definition whose name or target is the target, or none |
| BuildEnv.DeployTarget | src/commands/build-env.ts:88-199 | the step that selects a task definition and assembles its manifest computes `TaskStep` |
| BuildEnv.TaskStepOutcome | src/commands/build-env.ts:88-199 | no matching task definition throws "Task definition not found"; no target or no task definitions leaves the record alone; otherwise the first match's template is assembled and family, service and cluster fall back to the config's, with the serialised manifest under `ECS_TASK_DEFINITION` |
| BuildEnv.BuildEnvTaskDefinition | src/commands/build-env.ts:88-199 | the same for the whole command |
| BuildEnv.TaskStepFrame | src/commands/build-env.ts:98-198 | that step changes no key except `ECS_TASK_FAMILY`, `ECS_SERVICE_NAME`, `ECS_CLUSTER_NAME` and `ECS_TASK_DEFINITION` |
| BuildEnv.Assemble | src/commands/build-env.ts:119-197 | rewrites a copy of the template's containers in place and returns `Assembled` |
| BuildEnv.Assembled | src/commands/build-env.ts:119-197 | the manifest keeps every other top-level field of the template unchanged (the containers' own other fields are kept by `RewriteAllFrame`) and has container definitions exactly when the template has; a template without them assembles only when no container is configured |
| BuildEnv.RewriteContainers | src/commands/build-env.ts:123-197 | the loop over the configured containers rewrites the array to `RewriteAll`, or returns its first error |
| BuildEnv.FindContainer | src/commands/build-env.ts:124-126 | the index of the first template container with the name, or none |
| BuildEnv.RewriteAllFrame | src/commands/build-env.ts:123-197 | on success the containers keep their number, their names and all their fields the command does not rewrite (cpu, memory, port mappings, ...), every configured container was found and rewritten, and containers no config names are untouched; a container configured under a name no other entry uses is exactly its `Rewritten` template container |
| BuildEnv.RewriteAllErrPersists | src/commands/build-env.ts:123-132 | the first failing container ends the loop with its error |
| BuildEnv.RewriteContainer | src/commands/build-env.ts:134-196 | one iteration computes `Rewritten` |
| BuildEnv.Rewritten | src/commands/build-env.ts:134-196 | the rewrite fails iff the env dict has a truthy `STAGE` other than the stage deployed (lines 154-156), with that stage in the error; a successful rewrite keeps the container's name and every field it does not rewrite |
| BuildEnv.RewrittenContainer | src/commands/build-env.ts:134-196 | image from the named build item as an ECR URI, else the literal image, else the template's own; environment with unique names, `STAGE` and `VERSION` forced and every other dict entry; secrets the resolved merge; the name and every other field of the container as in the template |
| BuildEnv.EnvironmentForced | src/commands/build-env.ts:157-166 | the pair list has unique names, includes `STAGE` and `VERSION` with the forced values and exactly the dict's other entries |
| BuildEnv.TemplateSecretsGet | src/commands/build-env.ts:168-175 | a template secret seeds the dict iff it has both name and `valueFrom`, the last such one per name winning |
| BuildEnv.SecretsDictGet | src/commands/build-env.ts:168-182 | a configured secret wins over a template secret of the same name |
| BuildEnv.SecretsMerge | src/commands/build-env.ts:168-196 | the output secrets have unique names, each `valueFrom` the resolved SSM path of the winning value, and every winner appears |
| Dict.Put | src/config.ts:172 | assignment gives the key its new value and leaves every other key's value |
| Dict.PutShape | src/config.ts:172 | a new key is appended, an existing key keeps its position |
| Dict.AssignGet | src/config.ts:23 | `Object.assign`/spread: the source's value wins where it defines the key |
| Dict.AssignKeepsOrder | src/config.ts:23 | the existing keys keep their order in front |
| Dict.AssignAllGet | src/config.helper.ts:50-52 | over a sequence of dictionaries the last one that defines a key wins |
| Dict.AddMissingSpec | src/config.ts:137-143 | a first-writer-wins write keeps every existing value and its order, and adds the rest |
| Dict.Remove | src/config.ts:24 | `delete` removes the key and keeps the others' values |
| Strings.DecimalRoundTrip | src/config.ts:110 | the decimal key of an index reads back as that index |
| Strings.ArrayIndexDecimal | src/config.ts:110 | every key that reads as an index is that index's decimal key, so no other spelling (`01`, an empty key) names an element |
| Strings.DecimalInjective | src/config.ts:110 | different indices have different decimal keys |
| ConfigTree.IndexedGet | src/config.helper.ts:45-47 | the spread of a string or list repeats no key, and a key holds an element exactly when it is the decimal key of an index in range, the element at that index |
| ConfigTree.MembersGet | src/config.ts:110-111 | a string or a list, enumerated or indexed, has as properties exactly the decimal keys of its indices, each holding its element as a scalar, and no key repeats |
| Strings.JoinSplit | src/config.helper.ts:90 | joining the `__`-split segments of a key gives back the key |
| Strings.SplitJoin | src/config.ts:103 | splitting the `__`-join of segments that contain no `__`, all but the last not ending in `_`, gives back the segments |

## Left out

- YAML and dotenv parsing, `path.join`, `fs.existsSync`, `readYaml`, `readEnv`, `loadYaml`, `loadEnv` and `findFile`: these are parsing libraries and I/O. Their results are maps from file names to parsed trees and dictionaries, and a missing name is the error those functions throw.
- YAML values other than strings, maps and string sequences (numbers, booleans, `null`, aliases), and the JavaScript object ordering that puts integer-like keys first: keys keep insertion order. `isObject`'s `null` case is therefore not modelled.
- Error texts that embed a file path: the model keeps the error kind and the name.
- `console.log(generateIni(env))`, `safeLoadConfig` and the zod schema with its union-to-array normalisation: the configuration is taken as already validated.
- `resolveResource`, `resolveEnvDict`, `resolveSSMPath`, `resolveBuildargs` and `JSON.stringify`: uninterpreted functions. The `JSON.parse(JSON.stringify(...))` copy is the fresh array the containers are rewritten in.
- Concurrency of the awaited calls: they are taken to run in sequence.
- `BuildEnv.ResolveHead`: the `if (container)` guard of build-env.ts:72 is always true there, because the repository check before it requires the build item. The model has that single branch.
- `ConfigHelper.LoadConfig`: when the stage does not exist, the code spreads nothing and loads the defaults rather than throwing. The model follows the code.
- `ConfigHelper.LoadConfig`: `readEnv`'s `if (envPath)` is always true, since a joined path is never empty. A missing dotenv file therefore throws, the error the read would raise.
- `ConfigHelper.LoadConfig`: the process environment is written before the path merge, so it is updated even when the merge then throws.
- `ConfigHelper.ValuePath`: the prefix parameter `string | false` is a string, with `false` as the empty string. Both are falsy and disable the prefix check.
- `LegacyConfig.MergeDeep`: it merges one source, which is all the callers pass. The in-place update of the target and the aliasing between `target[key]` and the recursive call are modelled on values, with the result equal to the mutated target.
- `ConfigHelper.WalkAndSet`: updates through the cursor `p` into the shared tree are modelled as rebuilding the path on values.
- `LegacyConfig.DeepValue`: a key containing `__` is re-split into a different path, as written. This can throw, see `Obj2EnvDelimitedKeyThrows`.
- The legacy `loadConfig`'s `root` argument only locates files, so the model's file maps stand in for it.
- Own properties are the only properties: a key such as `constructor`, inherited from `Object.prototype`, is absent in the model. In JavaScript `loadEnvironmentIntoConfig` would throw "Tried to change config structure" walking into it (src/config.helper.ts:110-131), and `mergeDeep` would merge into the inherited function and drop the value (src/config.ts:169-170).
- `LegacyConfig.Index`: the `length` of a string or an array reads `undefined`, because numbers are not modelled; JavaScript gives the length. This reaches `deepValue` on a key with a `length` segment after `__`, the legacy `stages[stage]` lookup for the stage `length` when `stages` is not a map, and the same lookup in `ConfigHelper.StageTree`.
- `ConfigTree.Elements`: a string's elements are Unicode characters, where JavaScript's spread, `Object.assign`, `for...in` and indexing work on UTF-16 code units. A character outside the Basic Multilingual Plane is one element in the model and two in JavaScript: a legacy stage whose value is the single character U+1F600 flattens to one line under `0` here, and to its two surrogate halves under `0` and `1` in JavaScript. This carries into `Members`, `Indexed`, `LegacyConfig.Index`, `ConfigHelper.StageTree`, `ConfigHelper.EnvBlock` and `LegacyConfig.EnvironmentBlock`.
- `ConfigHelper.EnvBlock`, `LegacyConfig.EnvironmentBlock`: an entry of `environment` that is a map or a list is dropped, where the spread (src/config.helper.ts:45-47) or `Object.assign` (src/config.ts:22-23) would copy it into the environment.
