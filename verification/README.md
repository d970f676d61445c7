# Aztec Remix plugin — verified model of the compile and deploy core

The Aztec Remix plugin lets a Remix IDE user compile Noir/Aztec contract
projects on a remote compile server, then deploy and interact with the
compiled contracts. Most of the plugin is React view code. This project
models its pure core in Dafny and proves properties of it:

- **Project discovery** (`Discovery`). A depth-first, pre-order walk over
  the workspace tree under `browser/aztec`. A directory is reported as a
  project when one of its entries ends in `Nargo.toml`. After a refresh
  the first project found becomes the target.
- **Build packaging** (`Archive`).
  - The build input: every project file except build output, meaning paths
    that start with `<project>/target`.
  - The archive entry names: the first `browser/` is removed, then the first
    `<project>/`.
  - The workspace paths the returned entries are written to: under
    `browser/<project>/` on the compile-and-deploy panel, and under
    `browser/<project>/target/` on the legacy page.
- **The compile log stream** (`BuildLog`). A fold of the inbound
  log-channel messages into the ordered compile log and terminal lines.
- **A compile attempt** (`CompileSession`).
  - The request ids of both pages.
  - The target guard.
  - The upload.
  - The final log, error and `loading` state of each page.
- **Deploy preparation** (`DeployPrep`).
  - Whether deploying is offered, and the default contract.
  - The constructor's parameters and their prefilled values.
  - The ordered precondition guards of a deploy.
  - The conversion of entered values into `Address | BigInt | Raw` call
    arguments.
  - The deploy panel's labels, shown values and Deploy-button rule.
- **ABI presentation** (`Abi`, `Interact`).
  - A function's display tags in the selector.
  - Dropping the implicit leading `inputs` parameter of private functions.
  - The Simulate/Send/AuthWit button rules, where Send is forbidden for
    `view` functions.
  - The Create guard of the authorization-witness form.
- **Formatters** (`Formatters`). The shortened contract address, the
  account label and the contract-instance selector.

JavaScript's own semantics are modelled where the code depends on them
(`JsStrings`, `JsBigInt`, `JsValues`):

- `replace` with a string pattern removes the first occurrence anywhere,
  not just a prefix.
- `split('/')` is followed by `pop`, `slice(-2)` or `join`.
- `slice` and `substring` clamp their bounds.
- `filter(Boolean)` and JavaScript truthiness are modelled as such.
- `BigInt(text)` follows the StringToBigInt grammar of ECMAScript
  (ECMA-262, section 7.1.14): surrounding white space is trimmed, and the
  empty string is 0. The code performs no emptiness check on constructor
  arguments, so an empty integer argument deploys as 0 (`ArgumentConversion`).

The workspace is an inductive tree of `readdir` listings. File reads and
artifact loading are function parameters that return a result. The log
channel and the compile endpoint are abstracted into their outcomes.

## Model

| member | source | states |
|---|---|---|
| Discovery.DiscoverCharacterized | src/components/CompileDeployCard.tsx:85-103 | a name is reported iff some route of directory entries from the root reaches a directory whose listing has a key ending in `Nargo.toml`. The walk recurses whether or not the parent qualified. The legacy page (main.tsx:107-125) runs the same walk |
| Discovery.Complete | src/components/CompileDeployCard.tsx:88-99 | every directory that a route of directory entries reaches and that holds a manifest is reported |
| Discovery.Sound | src/components/CompileDeployCard.tsx:88-99 | every reported name comes from such a directory |
| Discovery.RootFirst | src/components/CompileDeployCard.tsx:90-93 | a qualifying directory is reported before anything below it |
| Discovery.SubtreeIsBlock | src/components/CompileDeployCard.tsx:94-99 | pre-order: the reports of any subtree form one contiguous block of the whole walk's reports |
| Discovery.FollowExtends | src/components/CompileDeployCard.tsx:96-97 | every path the walk reaches extends the path it started from |
| Discovery.ReportedUnderWorkspace | src/components/CompileDeployCard.tsx:92 | a reported name is the directory's path with its leading `browser/` removed, so `browser/` + name gives the path back |
| Discovery.DefaultTarget | src/components/CompileDeployCard.tsx:75-79 | the target is the first project, or empty when there is none |
| Discovery.RefreshTarget | src/components/CompileDeployCard.tsx:75-79 | after a refresh the target is empty iff no directory under `browser/aztec` qualifies; otherwise it is the first project reported |
| Archive.BuildInput | src/components/CompileDeployCard.tsx:105-108 | a file is kept iff its path does not start with `<project>/target`. The legacy page (main.tsx:128-132) uses the same filter |
| Archive.BuildInputAppend | src/components/CompileDeployCard.tsx:107 | the filter keeps listing order: it distributes over concatenation |
| Archive.SiblingsOfTargetExcluded | src/components/CompileDeployCard.tsx:107 | any path that merely starts with `<project>/target` is excluded, such as `target2/…` or `targetfile` |
| Archive.GenerateZipContents | src/components/CompileDeployCard.tsx:110-123 | the archive fails iff reading some non-directory file fails. Otherwise its entries are exactly the non-directory files, each named by removing the first `browser/` and then the first `<project>/`, with the file's content. The legacy page (main.tsx:135-150) builds its archive the same way |
| Archive.BuildArchiveContents | src/components/CompileDeployCard.tsx:105-123 | the uploaded archive holds exactly the non-directory files that are not build output |
| Archive.Writes | src/components/CompileDeployCard.tsx:252-261 | a write happens iff it is a non-directory entry written to the root plus its name, with its content. Directory entries are never written |
| Archive.InstallThenName | src/components/CompileDeployCard.tsx:116-117 | an entry written under `browser/<project>/` gets the same archive name back |
| Archive.NameThenInstall | src/components/CompileDeployCard.tsx:257 | a path under `browser/<project>/` is its install root plus its archive name |
| Archive.LegacyInstallName | src/components/main.tsx:185 | the legacy page installs one level deeper: the entry comes back as `target/<name>` |
| BuildLog.Consume | src/components/CompileDeployCard.tsx:221-231 | after the messages arrive in order, the log is the old log plus the truthy `logMsg` values in arrival order, and one info terminal line is added per value |
| BuildLog.CarriedAppend | src/components/CompileDeployCard.tsx:225 | later messages append to the log and never reorder it |
| BuildLog.CarriedMembers | src/components/CompileDeployCard.tsx:223-226 | a value is in the log iff it is truthy and some parsed message carried it as `logMsg` |
| BuildLog.IgnoredMessage | src/components/CompileDeployCard.tsx:222-230 | an unparsable message, or one without a truthy `logMsg`, changes neither the log nor the terminal |
| CompileSession.CardRequestIdShape | src/components/CompileDeployCard.tsx:69-73 | the panel's id is `req_`, the timestamp with `-`, `:` and `.` removed (its fraction digits kept), `_`, then the random part |
| CompileSession.PageRequestIdShape | src/components/main.tsx:201-205 | the legacy id is the timestamp without `-` and `:`, with everything from its `.` dropped, then `_` and the random part. It has no `req_` prefix |
| CompileSession.DropTrailingFraction | src/components/main.tsx:202 | `replace(/\..+/, '')` removes a trailing `.fraction` entirely |
| CompileSession.RandomPart | src/components/CompileDeployCard.tsx:71 | the random part is at most six base-36 digits, taken after the `0.` |
| CompileSession.LegacyNoTarget | src/components/main.tsx:154-157 | with no target the log gains `No target project selected!` and nothing is uploaded or written |
| CompileSession.Installed | src/components/main.tsx:181-190 | the files that land are exactly the written entries whose decode and write succeeded; a failing write does not stop the others |
| CompileSession.FirstFailure | src/components/main.tsx:181-190 | no failure iff every write succeeded; otherwise the message of a failing write with every earlier write in entry order successful |
| CompileSession.InstalledAll | src/components/main.tsx:181-190 | when no write fails, every write lands, in order |
| CompileSession.LegacyOutcome | src/components/main.tsx:159-198 | `loading` always ends false. No error iff the archive was built, the post succeeded, the reply unpacked and every write succeeded; then `Compilation completed!` is the last line. Otherwise the error is `Compilation failed.` and the log ends with `Error: <cause>`, the first failing write's message when a write failed. A failed build or post adds only that line and writes nothing |
| CompileSession.LegacyLog | src/components/main.tsx:171-192 | once the post returned, the log gains the upload notice before anything is unpacked, so an unpack failure still shows it. Then comes one `File written to Remix:` line per landed file, each under `browser/<project>/target/`. The landed files are exactly the non-directory entries whose write succeeded |
| CompileSession.CardChannelFailureStuck | src/components/CompileDeployCard.tsx:201-219 | as written, a log channel that fails to open leaves the panel loading with no error, and the Compile button disabled |
| CompileSession.CardCompileSettles | src/components/CompileDeployCard.tsx:195-274 | corrected: every attempt with a target ends with `loading` false. No error iff the channel opened, the archive was built, the reply unpacked and every write succeeded. After an unpacked reply the workspace holds exactly the successful writes and a failure names the first failing one; otherwise nothing is written |
| CompileSession.CardSucceeded | src/components/CompileDeployCard.tsx:206-274 | with every step successful, the panel holds the messages delivered before and after the reply, the completion line between them on the terminal, no error and `loading` false |
| CompileSession.CardSuccess | src/components/CompileDeployCard.tsx:206-274 | on success the channel is bound to the request id and the uploaded archive is the build input. The log holds the messages carried before the reply and then those arriving before the socket closes; on the terminal the completion line sits between the two. Every entry is written under `browser/<project>/` and names back to its entry |
| DeployPrep.TsFiles | src/components/CompileDeployCard.tsx:139-141 | the contract files are exactly the `.ts` paths of the artifacts listing |
| DeployPrep.TsFilesAppend | src/components/CompileDeployCard.tsx:139-141 | the filter keeps listing order and duplicates: it distributes over concatenation, which fixes the order of the contract dropdown (:402-406) |
| DeployPrep.TsFilesSingle | src/components/CompileDeployCard.tsx:139-141 | a single file contributes its path iff the path ends in `.ts` |
| DeployPrep.FirstTsFile | src/components/CompileDeployCard.tsx:143 | the first contract file is the first `.ts` file in listing order |
| DeployPrep.AvailabilityCharacterized | src/components/CompileDeployCard.tsx:134-147 | deploying is offered iff some artifacts file ends in `.ts` or some target file ends in `.json`. The selection is empty iff there is no `.ts` file, and otherwise it is the first one |
| DeployPrep.TargetChange | src/components/CompileDeployCard.tsx:45-55 | clearing the target clears the deploy state. Choosing a target recomputes availability and the contract list, and keeps the earlier parameters |
| DeployPrep.JsonOnlyCannotDeploy | src/components/CompileDeployCard.tsx:134-147 | with `.json` output but no `.ts` artifact, deploying is offered while the Deploy button stays disabled |
| DeployPrep.FirstJson | src/components/CompileDeployCard.tsx:157 | the artifact read is the first target file, in listing order, whose path ends in `.json`, and there is none iff no target file does |
| DeployPrep.FindConstructor | src/components/CompileDeployCard.tsx:167 | the function found is the first one, in declared order, named `constructor`, and there is none iff no function has that name |
| DeployPrep.InitialValues | src/components/CompileDeployCard.tsx:176-184 | every parameter name has an initial value: the account for `admin` when an account is set, and `''` otherwise |
| DeployPrep.LoadedParameters | src/components/CompileDeployCard.tsx:150-188 | after a load, the parameters are the constructor's `(name, type.kind)` pairs in declared order, with initial values keyed by exactly those names. No constructor gives empty parameters and values |
| DeployPrep.LoadFailures | src/components/CompileDeployCard.tsx:150-192 | without a client or target nothing changes. A missing `.json`, a failing load and a constructor without `abi.parameters` each set their own error and leave the parameters untouched |
| DeployPrep.OnAccountChange | src/components/CompileDeployCard.tsx:63-67 | a non-empty account becomes the `admin` value, adding the key when it is absent, and no other value changes |
| DeployPrep.DeployGuardOrder | src/components/CompileDeployCard.tsx:276-288 | the guards run in order: wallet, then target, then contract. Each missing precondition gives its own error and no request. Past them, the only failure is a value `BigInt` rejects |
| DeployPrep.ConvertArgs | src/components/CompileDeployCard.tsx:299-308 | one argument per parameter, in order, each the conversion of that parameter's value. A failure is the failure of the first parameter, in order, whose conversion fails |
| DeployPrep.ArgumentConversion | src/components/CompileDeployCard.tsx:299-307 | `admin` becomes an address. An integer holding the decimal text of n becomes n, and an empty integer becomes 0. Anything else passes through unchanged |
| DeployPrep.ContractClassNameOf | src/components/CompileDeployCard.tsx:296-297 | for a file `<dir>/<stem>.ts<rest>` whose first `.ts` ends the stem, the class is `<stem><rest>Contract`: only the first `.ts` is removed, so `<dir>/<Name>.ts` loads `<Name>Contract` and `<dir>/foo.tsx.ts` looks for `foox.tsContract` |
| DeployPrep.ContractOptionsLabelled | src/components/CompileDeployCard.tsx:402-406 | each contract option is valued by the full path and labelled by its file name |
| DeployPrep.ButtonMatchesGuards | src/components/deploy/DeploySection.tsx:74 | the Deploy button and the handler agree. When no deploy is running, the button is disabled iff a handler guard would fire |
| DeployPrep.ArtifactLabelSegments | src/components/deploy/DeploySection.tsx:51 | an artifact's label is the suffix of its path made of the path's last two `/`-separated segments. A path without `/` labels as itself |
| DeployPrep.ArtifactOptionsLabelled | src/components/deploy/DeploySection.tsx:49-53 | one option per JSON file, in order, valued by the full path and labelled by a suffix of it |
| DeployPrep.ShownValue | src/components/deploy/DeploySection.tsx:63 | the input shows the parameter's value, or `''` when there is none |
| Abi.InputKind | src/components/deploy/DeploySection.tsx:61 | the input is numeric iff the parameter type is `integer`. Function parameter inputs (FunctionParametersForm.tsx:29) follow the same rule |
| JsBigInt.IntTextRoundTrip | src/components/CompileDeployCard.tsx:304-305 | `BigInt` of an integer's decimal text is that integer |
| JsBigInt.BlankIsZero | src/components/CompileDeployCard.tsx:304-305 | `BigInt` of an empty or all-blank string is 0, not an error |
| JsBigInt.SurroundingBlanksIgnored | src/components/CompileDeployCard.tsx:305 | for every integer n and any white space or line terminators before and after its decimal text, `BigInt` gives n |
| JsBigInt.FractionRejected | src/components/CompileDeployCard.tsx:305 | any text containing `.`, such as `1.5`, is rejected, so the deploy fails |
| Interact.FunctionType | src/components/interact/FunctionSelector.tsx:34-38 | the type is `private` iff the attributes include `private`, and `public` otherwise, including when attributes are absent |
| Interact.OtherTags | src/components/interact/FunctionSelector.tsx:40-42 | the additional tags are exactly the attributes other than `private` and `public` |
| Interact.OtherTagsAppend | src/components/interact/FunctionSelector.tsx:40-42 | the filter keeps attribute order: it distributes over concatenation |
| Interact.OtherTagsSingle | src/components/interact/FunctionSelector.tsx:40-42 | a single attribute is dropped iff it is `private` or `public` |
| Interact.DisplayTagsShape | src/components/interact/FunctionSelector.tsx:39-45 | the tags are the type, then `, unconstrained` iff the flag is exactly `true`, then `, ` and the additional tags when there are any |
| Interact.DisplayTagsStart | src/components/interact/FunctionSelector.tsx:43-45 | the tags always begin with the type, so they are never empty |
| Interact.ViewIsTagged | src/components/interact/FunctionSelector.tsx:40-42 | a `view` function shows `view` among its additional tags |
| Interact.SelectorOptions | src/components/interact/FunctionSelector.tsx:11-50 | the alert shows iff the list is empty. Otherwise a `''` placeholder comes first, then one option per function in order, valued by its name and labelled with its name and type. With no selection the value is `''` |
| Interact.KeepAfterFirst | src/components/interact/FunctionParametersForm.tsx:15-17 | no parameter after the first position is ever dropped |
| Interact.FormParametersClosed | src/components/interact/FunctionParametersForm.tsx:12-17 | a missing `abi` or `parameters` gives no inputs. The form drops the first parameter iff the function is private and that parameter is named `inputs`, and keeps all others in order |
| Interact.FormViewInputs | src/components/interact/FunctionParametersForm.tsx:19-31 | `No parameters for this function.` shows iff nothing is left after the drop. Otherwise there is one input per kept parameter, numeric exactly for integers |
| Interact.ShownCallValue | src/components/interact/FunctionParametersForm.tsx:31 | the input shows the stored value for this function and parameter, or `''` |
| Interact.ButtonRules | src/components/interact/ActionButtons.tsx:21-54 | Send is disabled for every view function. When no send is running, Send is disabled iff the function is a view. Simulate depends only on its own flag. AuthWit is never disabled |
| Interact.CreateRule | src/components/interact/AuthwitCreationForm.tsx:24-46 | Create is enabled iff caller and alias are both non-empty and no creation is running. The caller text counts only through being non-empty: although its field asks for an Aztec address, any text that is not one (such as `x`) enables Create as well |
| Formatters.ShortenAddressShape | src/components/interact/ContractInstanceSelector.tsx:20-22 | an address of length 12 or less is unchanged. A longer one becomes its first 8 characters, `...`, then its last 6, 17 characters in all. That is longer than the original for lengths 13 to 16 |
| Formatters.InstanceSelectorOptions | src/components/interact/ContractInstanceSelector.tsx:31-60 | the selector is disabled iff there are no instances, and then holds a single `''` placeholder. Options are valued by full addresses and labelled by their shortened form. Copy and delete exist iff an instance is selected, and act on that address |
| Formatters.AccountLabelParts | src/components/main.tsx:259-261 | the label is `Account `, the position plus one (it reads back as that integer), then `: `, the address's first 6 characters, `...` and its last 4 |

## Left out

- The WebSocket, axios and `FormData` transport. The log channel is modelled as its outcome: it fails to open, or it opens and delivers some messages before the compile request settles and some after, until the `finally` closes it. The compile endpoint is modelled as a failed post, a reply that is not an archive, or the unpacked entries.
- An `onerror` firing after the channel has opened, while the upload runs. The model's run after opening has no such interleaving.
- The socket that main.tsx opens at mount. It appends each raw frame to the same log that `handleCompile` writes to, and the model has no such frames.
- CompileSession.LegacyLog: the notice's position, the log's length and the positions of the `File written to Remix:` lines hold only when no mount-socket frame arrives during the compile. A frame arriving then is inserted among these lines.
- CompileSession.LegacyOutcome: likewise, `Compilation completed!` or `Error: <cause>` is the last line only when no mount-socket frame arrives during the compile.
- JSZip compression and decompression, and its implicit folder entries. An archive is a sequence of named entries.
- Duplicate archive names. JSZip would overwrite an earlier entry with a later one; the model keeps both.
- The `Promise.all` interleaving of reads and writes. The first failing read in listing order decides the error message.
- CompileSession.LegacyOutcome: with writes running concurrently, the first write to fail in time decides the message, and lines of writes finishing later can follow the `Error:` line. The model takes the first failing write in entry order and logs every landed file before the error.
- CompileSession.CardCompileSettles: likewise reports the first failing write in entry order, not the first to fail in time.
- Strings are sequences of Unicode characters, while JavaScript lengths and indices count UTF-16 code units. `Substring`, `SliceFront`, `SliceBack`, `ShortenAddress` and `AccountLabel` agree with JavaScript only on text without characters outside the Basic Multilingual Plane. Addresses and request-id parts are ASCII.
- `FileUtil.allFilesForBrowser`, which is not part of this model. Its listing is an input, and whether its paths carry the `browser/` prefix is left open.
- Dynamic `import()` of the contract module and `ContractClass.deploy(...).send().wait()`, with the messages they produce. They are foreign SDK calls, so `PrepareDeploy` stops at the class name and the arguments.
- `AztecAddress.fromString`. The address parse is an opaque `Address` constructor that never fails.
- `Date` and `Math.random` in the request ids. The timestamp and the random number's base-36 text are inputs.
- The artifact's byte-level JSON parsing. `load` is a parameter that gives the parsed artifact or the message it failed with.
- The engine's own error texts for a missing `abi.parameters` and for `BigInt`. They follow V8's wording; other engines word them differently.
- JSON values other than strings, integers, booleans and `null`. A `logMsg` such as `1.5` has no representation, and an object or array is kept without its contents, although the panel stores the value itself in its log and on the terminal.
- A constructor parameter without a `type`. The code's `param.type.kind` then throws and the `catch` reports it like a missing `abi.parameters`; the model's parameters always carry a type.
- The re-run of `checkDeployAvailability` after a successful compile. When its listings resolve it is `CheckDeployAvailability` on the new listings; its effect on the panel's availability state is not part of a compile run.
- CompileSession.CardSuccess: the re-run sits inside the `try`. If its `readdir` rejects after every write succeeded, the panel logs the completion line, then shows `Compilation failed: <msg>` and logs the failure line. The model assumes the listings resolve.
- CompileSession.CardCompileSettles: for the same reason, "no error" after a fully successful compile assumes the re-run's listings resolve.
- Discovery.RefreshTarget: `readdir` is total in the model. In the code a rejecting `readdir` (for example a missing `browser/aztec`) rejects the refresh, and the old project list and target stay.
- `readdir` and `FileUtil.allFilesForBrowser` rejecting in general. Listings are inputs and always present.
- `loadContractParameters` always reads the first `.json` target file, whichever contract is selected. The model keeps this.
- `setContractArtifact`. Nothing modelled reads the stored artifact.
- `handleParamChange`. It is a plain map update.
- The disabled `admin` input of the panel. It is purely presentational.
- EnvironmentCard, App, AztecProvider, AztecPlugin, InteractCard, ProofCard, `utils/clipboard.ts`, FunctionFilter, AuthWitnessSelector and AtAddressInput. They are wallet bootstrap, React composition, empty panels, the browser clipboard, and controls that only emit events. The function-filtering rules, the witness store and alias handling, instance bookkeeping, and simulate/send execution live in files that are not part of this model.
- `types.ts`. Only its `FileInfo {path, isDirectory}` shape is mirrored.

## Findings

| source | as written | input that shows it | evidently intended | confidence | as-written member | corrected member |
|---|---|---|---|---|---|---|
| src/components/CompileDeployCard.tsx:201-219 | `setLoading(true)` runs, then the handler awaits a promise that rejects when the socket errors before opening. That await sits outside the `try`/`finally`, so `setLoading(false)` never runs and no error is set | a non-empty target with the log server at `ws://localhost:8082` unreachable: the channel fails to open | the panel shows `WebSocket connection failed.` and clears `loading`, as its own later `onerror` handler does | not executed | CompileSession.CardCompileAsWritten, CompileSession.CardChannelFailureStuck | CompileSession.CardCompile, CompileSession.CardCompileSettles |
