# Java-Path: result envelope and installer flow

This project models two small pieces of the Java-Path installer in Dafny.

- **The result envelope** of `src/utils/validator.ts` (module `Validator`). `ServiceResponse<T>` is a tagged union. Both variants carry `data`. Only the failure variant carries `error`. The module also has the two constructors and `isSuccess`. `isSuccess` takes either a response or a plain boolean.
- **The example installer** of `examples/install.ts` (module `Install`). `ARCHFILE_NAME` builds an archive file name from a release. `getorinstallJava` looks up an installed version and, when it is missing, fetches the catalog, selects a release, downloads it, unpacks it and looks the version up again.

Module `Decimal` gives the decimal text that a template literal produces for an integral `number`. It also has the parser that inverts that text. Module `Wrappers` holds `Option`.

The installer's collaborators are outside the model:
- `findJavaVersion`
- `JavaInfoService.getInstallableVersions`, `filter` and `downloadJavaRelease`
- `taskManager.unpack`
- `path.join`
- `defaultPaths`

Each one enters `GetOrInstallJava` as an input. An input is the outcome that collaborator produces for the arguments it receives, collected in the `Collaborators` record; `defaultPaths` is the `Paths` parameter. `findJavaVersion` appears twice: once for the disk before the install and once for the disk after unpacking, since the two lookups can answer differently. The method also returns the sequence of collaborator calls it made (`Call`). Its contract uses that sequence to say which collaborators each branch reaches, in what order and with which arguments.

`getorinstallJava` does not wrap download or unpack failures in a failed `ServiceResponse`, and it does not treat a missing installation after unpacking as an error. The model keeps this behaviour:
- A falsy download returns the same `{alljavaVersions, version}` object as "no release found".
- A rejected download or unpack promise rejects the whole call. This is the `Aborted` outcome.
- The second lookup's answer is returned unchecked, even when it is `None`.
- The `success` flags of the catalog, filter and download responses are never read. Only the `data` fields are. So the filter receives `alljavaVersions.data.releases` even from a failed catalog response.

## Model

| member | source | states |
|---|---|---|
| Validator.CreateSuccessResponse | src/utils/validator.ts:13-16 | the response succeeds, carries the given `data` and has no `error` |
| Validator.CreateErrorResponse | src/utils/validator.ts:22-29 | the response fails and carries exactly the given `error` and `data` |
| Validator.CreateErrorResponseWithoutData | src/utils/validator.ts:22-29 | with `data` omitted the response fails, keeps the message and its `data` is `false` |
| Validator.IsSuccess | src/utils/validator.ts:30-37 | the declared type predicate: true exactly for the boolean `true` or a response of the success variant |
| Validator.IsSuccessOfBool | src/utils/validator.ts:33-35 | a boolean argument is returned unchanged |
| Validator.IsSuccessOfResponse | src/utils/validator.ts:36 | a response argument reduces to its `success` flag |
| Validator.IsSuccessOfConstructors | src/utils/validator.ts:13-37 | `isSuccess` holds of every `createSuccessResponse(d)` and of no `createErrorResponse(e, d)` or `createErrorResponse(e)` |
| Validator.ResponseShape | src/utils/validator.ts:5-7 | every response carries `data`; it has an `error` exactly when `success` is false, and it is rebuilt by the constructor its flag names |
| Decimal.NatText | examples/install.ts:10 | the text of a natural number is non-empty, all decimal digits, and has no leading zero |
| Decimal.IntText | examples/install.ts:10 | the text of an integer is non-empty and contains no `_`, so it cannot blur the file name's separators |
| Decimal.NatTextRoundTrip | examples/install.ts:10 | the digits of `n` read back as `n` |
| Decimal.IntTextRoundTrip | examples/install.ts:10 | parsing the text of any integer, negative ones included, gives that integer back |
| Decimal.IntTextInjective | examples/install.ts:10 | different feature versions render as different text |
| Install.ArchFileName | examples/install.ts:8-11 | the archive name always ends in `.zip` |
| Install.ArchFileNameRoundTrip | examples/install.ts:8-11 | the name splits back into the release's feature version, architecture and OS when the architecture has no `_` |
| Install.ArchFileNameInjective | examples/install.ts:8-11 | releases with `_`-free architectures share a name only if they share version, architecture and OS |
| Install.ArchFileNameDependsOnlyOnPlatform | examples/install.ts:9-10 | the name depends on nothing but the feature version, architecture and OS |
| Install.ArchFileNameExample | examples/install.ts:8-11 | version 23, `x64`, `linux` gives exactly `23_x64_linux.zip` |
| Install.ArchFileNameCollision | examples/install.ts:8-11 | an architecture containing `_` can make two platforms share one name |
| Install.GetOrInstallJava | examples/install.ts:12-42 | one clause per branch gives the outcome and the exact calls made. A found installation returns `{findResult}` after the lookup alone. Otherwise the catalog and the filter are called, the filter on `data.releases` whatever the success flag. No selected release returns `{alljavaVersions, version}` with no download. A falsy download returns the same object with no unpack. A rejected download task aborts the call with its reason, before any unpack. A rejected unpack task aborts the call with its reason, with no second lookup. Otherwise the six stages run in order and the second lookup's answer is returned with the download response and the catalog |
| Install.DownloadFlows | examples/install.ts:24-27 | up to the download, the only download request is for the selected release under its archive name |
| Install.UnpackFlows | examples/install.ts:24-37 | the one unpack follows the fulfilled download and receives the download directory joined with the same archive name the download was given |
| Install.ParseStemRoundTrip | examples/install.ts:10 | the stem `<featureVersion>_<arch>_<os>` splits back into its three parts when the architecture has no `_` |

## Left out

- I/O behind the collaborators: the HTTP catalog and download, the filesystem scan of `findJavaVersion`, archive extraction, `path.join` normalisation and the configuration of `defaultPaths`. Each enters only as the outcome it produces.
- The task manager's lifecycle: task registration, several awaiters of one task, cancellation. An awaited task is reduced to "fulfilled" or "rejected".
- Console logging and the top-level invocation with its `.then`/`.catch` (examples/install.ts:43-49). An `Aborted` outcome is one of the rejections that reach that `.catch`.
- Install.GetOrInstallJava: assumes that `findJavaVersion` (examples/install.ts:13, 38), `getInstallableVersions` (:15), `filter` (:16), `downloadJavaRelease` (:25) and the `taskManager.unpack` call (:34) always resolve. A rejection of any of them also reaches the `.catch` at :47, but the model gives each of them a value. Only the download and unpack tasks' own promises (:33, :37) can reject, and those give `Aborted`.
- JavaScript truthiness of arbitrary values: the lookup, filter payload and download response are `Option`s. A falsy but present value (for example an empty string) is not distinguished from an absent one.
- A catalog response whose `data` lacks `releases`: the model's catalog payload always has a release list. In the source such a payload would hand `undefined` to the filter, or throw.
- The TypeScript default type `unknown` of `createErrorResponse`: with `data` omitted the model's response is over booleans, since its `data` is `false`.
- Decimal.IntText: renders integers only. It does not model how JavaScript prints fractional, very large (exponent notation) or non-finite `number`s as feature versions.
- The `JavaRelease` record beyond the three fields the file name uses: `locator` stands for everything else. src/services/java.service.ts is not part of this model.
