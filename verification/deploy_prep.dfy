/** Deploy preparation on the CompileDeployCard panel and in
    DeploySection: whether deploying is offered, which contract is
    selected, the constructor's parameters and their initial values, the
    precondition guards of a deploy, and the conversion of the entered
    values into call arguments. */
module DeployPrep {
  import opened Wrappers
  import opened JsStrings
  import opened JsBigInt
  import opened Workspace
  import opened Abi

  // ---- Availability and the selected contract ----

  /** The `.ts` paths among the files under `<target>/src/artifacts`, in order. */
  function TsFiles(files: seq<FileInfo>): (paths: seq<string>)
    ensures |paths| <= |files|
    ensures forall p :: p in paths <==> exists f :: f in files && f.path == p && EndsWith(p, ".ts")
  {
    TsPathsMembers(files);
    TsPaths(files)
  }

  /** The filter itself, one file at a time. */
  function TsPaths(files: seq<FileInfo>): seq<string> {
    if files == [] then []
    else (if EndsWith(files[0].path, ".ts") then [files[0].path] else []) + TsPaths(files[1..])
  }

  lemma {:induction false} TsPathsMembers(files: seq<FileInfo>)
    ensures |TsPaths(files)| <= |files|
    ensures forall p :: p in TsPaths(files) <==> exists f :: f in files && f.path == p && EndsWith(p, ".ts")
  {
    if files != [] {
      TsPathsMembers(files[1..]);
      assert forall f :: f in files <==> f == files[0] || f in files[1..];
    }
  }

  lemma {:induction false} TsPathsAppend(a: seq<FileInfo>, b: seq<FileInfo>)
    ensures TsPaths(a + b) == TsPaths(a) + TsPaths(b)
  {
    if a == [] {
      assert a + b == b;
    } else {
      assert (a + b)[0] == a[0];
      assert (a + b)[1..] == a[1..] + b;
      TsPathsAppend(a[1..], b);
    }
  }

  /** The `.filter().map()` keeps listing order and duplicates: it
      distributes over concatenation. */
  lemma TsFilesAppend(a: seq<FileInfo>, b: seq<FileInfo>)
    ensures TsFiles(a + b) == TsFiles(a) + TsFiles(b)
  {
    TsPathsAppend(a, b);
  }

  /** A single file contributes its path iff it ends in `.ts`. */
  lemma TsFilesSingle(f: FileInfo)
    ensures TsFiles([f]) == if EndsWith(f.path, ".ts") then [f.path] else []
  {
    assert [f][1..] == [];
    assert TsPaths([f]) == (if EndsWith(f.path, ".ts") then [f.path] else []) + TsPaths([]);
  }

  datatype Availability = Availability(canDeploy: bool, contractFiles: seq<string>, selected: string)

  /** `checkDeployAvailability`, given the files found under
      `<target>/src/artifacts` and under `<target>/target`. */
  function CheckDeployAvailability(artifactsFiles: seq<FileInfo>, targetFiles: seq<FileInfo>): Availability {
    var ts := TsFiles(artifactsFiles);
    var hasJson := exists f :: f in targetFiles && EndsWith(f.path, ".json");
    Availability(|ts| > 0 || hasJson, ts, if |ts| > 0 then ts[0] else "")
  }

  /** TsFiles keeps the listing order: its first element is the first
      `.ts` file. */
  lemma {:induction false} FirstTsFile(files: seq<FileInfo>)
    requires |TsFiles(files)| > 0
    ensures exists i :: 0 <= i < |files| && files[i].path == TsFiles(files)[0] && EndsWith(files[i].path, ".ts")
                        && forall j :: 0 <= j < i ==> !EndsWith(files[j].path, ".ts")
  {
    assert files != [];
    if !EndsWith(files[0].path, ".ts") {
      assert TsFiles(files) == TsFiles(files[1..]);
      FirstTsFile(files[1..]);
      var i :| 0 <= i < |files[1..]| && files[1..][i].path == TsFiles(files[1..])[0]
               && EndsWith(files[1..][i].path, ".ts")
               && forall j :: 0 <= j < i ==> !EndsWith(files[1..][j].path, ".ts");
      assert files[i + 1] == files[1..][i];
      forall j | 0 <= j < i + 1
        ensures !EndsWith(files[j].path, ".ts")
      {
        if j > 0 { assert files[j] == files[1..][j - 1]; }
      }
      assert files[i + 1].path == TsFiles(files)[0];
    } else {
      assert TsFiles(files)[0] == files[0].path;
    }
  }

  /** Deploying is offered iff some artifacts file ends in `.ts` or some
      target file ends in `.json`; the selection is the first `.ts` file,
      or empty when there is none. */
  lemma AvailabilityCharacterized(artifactsFiles: seq<FileInfo>, targetFiles: seq<FileInfo>)
    ensures var a := CheckDeployAvailability(artifactsFiles, targetFiles);
            && (a.canDeploy <==> (exists f :: f in artifactsFiles && EndsWith(f.path, ".ts"))
                                 || (exists f :: f in targetFiles && EndsWith(f.path, ".json")))
            && (a.selected == "" <==> forall f :: f in artifactsFiles ==> !EndsWith(f.path, ".ts"))
            && (a.selected != "" ==>
                  exists i :: 0 <= i < |artifactsFiles| && artifactsFiles[i].path == a.selected
                              && EndsWith(a.selected, ".ts")
                              && forall j :: 0 <= j < i ==> !EndsWith(artifactsFiles[j].path, ".ts"))
  {
    var ts := TsFiles(artifactsFiles);
    if |ts| > 0 {
      FirstTsFile(artifactsFiles);
      assert ts[0] in ts;
    }
  }

  // ---- The panel's deploy state ----

  /** `{ name, type: type.kind }` as the panel keeps a parameter. */
  datatype Parameter = Parameter(name: string, kind: string)

  datatype DeployPanel = DeployPanel(
    canDeploy: bool,
    contractFiles: seq<string>,
    selectedContract: string,
    parameters: seq<Parameter>,
    paramValues: map<string, string>,
    compileError: Option<string>)

  /** The effect of changing the target project. */
  function OnTargetChange(panel: DeployPanel, target: string,
                          artifactsFiles: seq<FileInfo>, targetFiles: seq<FileInfo>): DeployPanel
  {
    if target == "" then
      panel.(canDeploy := false, contractFiles := [], selectedContract := "", parameters := [], paramValues := map[])
    else
      var a := CheckDeployAvailability(artifactsFiles, targetFiles);
      panel.(canDeploy := a.canDeploy, contractFiles := a.contractFiles, selectedContract := a.selected)
  }

  /** Clearing the target clears the deploy state; choosing one offers
      deploying as the files decide and selects the first contract, but
      leaves the parameters of the previous project until the selection
      triggers a reload. */
  lemma TargetChange(panel: DeployPanel, target: string, artifactsFiles: seq<FileInfo>, targetFiles: seq<FileInfo>)
    ensures var r := OnTargetChange(panel, target, artifactsFiles, targetFiles);
            && (target == "" ==>
                  !r.canDeploy && r.contractFiles == [] && r.selectedContract == ""
                  && r.parameters == [] && r.paramValues == map[])
            && (target != "" ==>
                  && (r.canDeploy <==> (exists f :: f in artifactsFiles && EndsWith(f.path, ".ts"))
                                       || (exists f :: f in targetFiles && EndsWith(f.path, ".json")))
                  && (forall p :: p in r.contractFiles <==> exists f :: f in artifactsFiles && f.path == p && EndsWith(p, ".ts"))
                  && r.parameters == panel.parameters && r.paramValues == panel.paramValues)
            && r.compileError == panel.compileError
  {
    AvailabilityCharacterized(artifactsFiles, targetFiles);
  }

  /** The prefilled value of a constructor parameter. */
  function InitialValue(name: string, account: string): string {
    if name == "admin" && account != "" then account else ""
  }

  /** The `forEach` that fills the initial values, one parameter at a time. */
  function InitialValues(params: seq<Parameter>, account: string): (values: map<string, string>)
    ensures values.Keys == set p | p in params :: p.name
    ensures forall k :: k in values ==> values[k] == InitialValue(k, account)
  {
    if params == [] then map[]
    else
      var last := params[|params| - 1];
      var before := InitialValues(params[..|params| - 1], account);
      assert forall p :: p in params <==> p in params[..|params| - 1] || p == last;
      before[last.name := InitialValue(last.name, account)]
  }

  /** When the account changes to a non-empty one, `admin` is set to it. */
  function OnAccountChange(values: map<string, string>, account: string): (r: map<string, string>)
    ensures account != "" ==> r.Keys == values.Keys + {"admin"} && r["admin"] == account
    ensures forall k :: k in values && k != "admin" ==> k in r && r[k] == values[k]
    ensures account == "" ==> r == values
  {
    if account != "" then values["admin" := account] else values
  }

  /** `artifact.functions?.find(fn => fn.name === 'constructor')`. */
  function FindConstructor(fns: seq<FunctionAbi>): (r: Option<FunctionAbi>)
    ensures r.Some? ==> exists i :: 0 <= i < |fns| && fns[i] == r.value && r.value.name == "constructor"
                                    && forall j :: 0 <= j < i ==> fns[j].name != "constructor"
    ensures r.None? <==> forall f :: f in fns ==> f.name != "constructor"
  {
    if fns == [] then None
    else if fns[0].name == "constructor" then Some(fns[0])
    else FindConstructor(fns[1..])
  }

  /** The first target file whose path ends in `.json`. */
  function FirstJson(files: seq<FileInfo>): (r: Option<FileInfo>)
    ensures r.Some? ==> exists i :: 0 <= i < |files| && files[i] == r.value && EndsWith(r.value.path, ".json")
                                    && forall j :: 0 <= j < i ==> !EndsWith(files[j].path, ".json")
    ensures r.None? <==> forall f :: f in files ==> !EndsWith(f.path, ".json")
  {
    if files == [] then None
    else if EndsWith(files[0].path, ".json") then Some(files[0])
    else FirstJson(files[1..])
  }

  const NoArtifactMessage: string := "No compiled artifact (.json) found in target folder."
  const LoadFailurePrefix: string := "Failed to load contract parameters: "

  /** What reading `.abi.parameters` of the constructor yields: the
      parameters, or the message of the `TypeError` thrown on a missing
      field (as the V8 engine words it). */
  function ConstructorParameters(fn: FunctionAbi): Result<seq<Parameter>, string> {
    match fn.abi
    case None => Err("Cannot read properties of undefined (reading 'parameters')")
    case Some(Signature(None)) => Err("Cannot read properties of undefined (reading 'map')")
    case Some(Signature(Some(ps))) => Ok(seq(|ps|, i requires 0 <= i < |ps| => Parameter(ps[i].name, ps[i].typ.kind)))
  }

  /** `loadContractParameters`. `load` reads and parses a file, or gives
      the message it failed with. */
  function LoadContractParameters(panel: DeployPanel, hasClient: bool, target: string, account: string,
                                  targetFiles: seq<FileInfo>, load: string -> Result<Artifact, string>): DeployPanel
  {
    if !hasClient || target == "" then panel
    else match FirstJson(targetFiles)
      case None => panel.(compileError := Some(NoArtifactMessage))
      case Some(file) =>
        match load(file.path)
        case Err(msg) => panel.(compileError := Some(LoadFailurePrefix + msg))
        case Ok(artifact) =>
          match FindConstructor(artifact.functions.GetOr([]))
          case None => panel.(parameters := [], paramValues := map[])
          case Some(ctor) =>
            match ConstructorParameters(ctor)
            case Err(msg) => panel.(compileError := Some(LoadFailurePrefix + msg))
            case Ok(params) => panel.(parameters := params, paramValues := InitialValues(params, account))
  }

  /** Without a client or a target nothing happens; otherwise a missing
      `.json` artifact, a file that fails to load or parse, and a
      constructor without `abi.parameters` each set their own error and
      leave the parameters and values as they were. */
  lemma LoadFailures(panel: DeployPanel, hasClient: bool, target: string, account: string,
                     targetFiles: seq<FileInfo>, load: string -> Result<Artifact, string>)
    ensures var r := LoadContractParameters(panel, hasClient, target, account, targetFiles, load);
            && (!hasClient || target == "" ==> r == panel)
            && (hasClient && target != "" && (forall f :: f in targetFiles ==> !EndsWith(f.path, ".json")) ==>
                  r == panel.(compileError := Some("No compiled artifact (.json) found in target folder.")))
            && (hasClient && target != "" && FirstJson(targetFiles).Some? && load(FirstJson(targetFiles).value.path).Err? ==>
                  r == panel.(compileError := Some("Failed to load contract parameters: "
                                                   + load(FirstJson(targetFiles).value.path).error)))
            && (hasClient && target != "" && FirstJson(targetFiles).Some? && load(FirstJson(targetFiles).value.path).Ok?
                && FindConstructor(load(FirstJson(targetFiles).value.path).value.functions.GetOr([])).Some?
                && ConstructorParameters(FindConstructor(load(FirstJson(targetFiles).value.path).value.functions.GetOr([])).value).Err? ==>
                  r == panel.(compileError := Some("Failed to load contract parameters: "
                     + ConstructorParameters(FindConstructor(load(FirstJson(targetFiles).value.path).value.functions.GetOr([])).value).error)))
            && (r.compileError != panel.compileError ==>
                  r.parameters == panel.parameters && r.paramValues == panel.paramValues
                  && (FirstJson(targetFiles).None? ==> r.compileError == Some(NoArtifactMessage))
                  && (FirstJson(targetFiles).Some? ==> StartsWith(r.compileError.value, LoadFailurePrefix)))
  {
    if hasClient && target != "" {
      match FirstJson(targetFiles)
      case None =>
      case Some(file) =>
        match load(file.path)
        case Err(msg) =>
          assert (LoadFailurePrefix + msg)[..|LoadFailurePrefix|] == LoadFailurePrefix;
        case Ok(artifact) =>
          match FindConstructor(artifact.functions.GetOr([]))
          case None =>
          case Some(ctor) =>
            match ConstructorParameters(ctor)
            case Err(msg) =>
              assert (LoadFailurePrefix + msg)[..|LoadFailurePrefix|] == LoadFailurePrefix;
            case Ok(_) =>
    }
  }

  /** After a successful load the parameters are the constructor's
      `(name, type.kind)` pairs in declared order, every one has an entry,
      and only `admin` is prefilled, with the account. Without a
      constructor both are empty. */
  lemma LoadedParameters(panel: DeployPanel, target: string, account: string,
                         targetFiles: seq<FileInfo>, load: string -> Result<Artifact, string>)
    requires target != ""
    requires FirstJson(targetFiles).Some?
    requires load(FirstJson(targetFiles).value.path).Ok?
    ensures var artifact := load(FirstJson(targetFiles).value.path).value;
            var r := LoadContractParameters(panel, true, target, account, targetFiles, load);
            match FindConstructor(artifact.functions.GetOr([]))
            case None => r.parameters == [] && r.paramValues == map[] && r.compileError == panel.compileError
            case Some(ctor) =>
              ctor.abi.Some? && ctor.abi.value.parameters.Some? ==>
                var ps := ctor.abi.value.parameters.value;
                && |r.parameters| == |ps|
                && (forall i :: 0 <= i < |ps| ==> r.parameters[i] == Parameter(ps[i].name, ps[i].typ.kind))
                && r.paramValues.Keys == (set i | 0 <= i < |ps| :: ps[i].name)
                && (forall k :: k in r.paramValues ==>
                      r.paramValues[k] == (if k == "admin" && account != "" then account else ""))
                && r.compileError == panel.compileError
  {
    var artifact := load(FirstJson(targetFiles).value.path).value;
    var r := LoadContractParameters(panel, true, target, account, targetFiles, load);
    match FindConstructor(artifact.functions.GetOr([]))
    case None =>
      assert r == panel.(parameters := [], paramValues := map[]);
    case Some(ctor) =>
      match ctor.abi
      case None =>
      case Some(Signature(None)) =>
      case Some(Signature(Some(ps))) =>
        var params := ConstructorParameters(ctor).value;
        assert r == panel.(parameters := params, paramValues := InitialValues(params, account));
        ParametersShown(ps, account);
  }

  /** The panel fields a constructor's declared parameters produce. */
  lemma ParametersShown(ps: seq<AbiParameter>, account: string)
    ensures var params := seq(|ps|, i requires 0 <= i < |ps| => Parameter(ps[i].name, ps[i].typ.kind));
            && |params| == |ps|
            && (forall i :: 0 <= i < |ps| ==> params[i] == Parameter(ps[i].name, ps[i].typ.kind))
            && InitialValues(params, account).Keys == (set i | 0 <= i < |ps| :: ps[i].name)
            && (forall k :: k in InitialValues(params, account) ==>
                  InitialValues(params, account)[k] == (if k == "admin" && account != "" then account else ""))
  {
    var params := seq(|ps|, i requires 0 <= i < |ps| => Parameter(ps[i].name, ps[i].typ.kind));
    ParameterNames(ps, params);
  }

  lemma ParameterNames(ps: seq<AbiParameter>, params: seq<Parameter>)
    requires |params| == |ps|
    requires forall i :: 0 <= i < |ps| ==> params[i].name == ps[i].name
    ensures (set p | p in params :: p.name) == (set i | 0 <= i < |ps| :: ps[i].name)
  {
    forall i | 0 <= i < |ps|
      ensures ps[i].name in (set p | p in params :: p.name)
    {
      assert params[i] in params;
    }
  }


  // ---- The deploy handler ----

  /** A deploy argument: an address built from the entered text, a big
      integer, or the entered value as it is. `None` is `undefined`. */
  datatype CallArg = Address(text: Option<string>) | BigInt(number: int) | Raw(entered: Option<string>)

  datatype DeployError = NoWallet | NoTarget | NoContract | NotAnInteger(param: string, value: Option<string>)

  /** The panel's error text for each failure (BigInt's own message as the
      V8 engine words it). */
  function ErrorMessage(e: DeployError): string {
    match e
    case NoWallet => "Wallet not initialized. Connect to Aztec Sandbox first."
    case NoTarget => "No target project selected!"
    case NoContract => "No contract selected for deployment!"
    case NotAnInteger(_, v) =>
      "Deployment failed: Cannot convert " + v.GetOr("undefined") + " to a BigInt"
  }

  /** The argument for one parameter: `admin` is an address whatever its
      type, an `integer` goes through `BigInt`, anything else as entered. */
  function ConvertArg(p: Parameter, value: Option<string>): Result<CallArg, DeployError> {
    if p.name == "admin" then Ok(Address(value))
    else if p.kind == "integer" then
      match value
      case None => Err(NotAnInteger(p.name, None))
      case Some(text) =>
        match ParseBigInt(text)
        case Some(n) => Ok(BigInt(n))
        case None => Err(NotAnInteger(p.name, value))
    else Ok(Raw(value))
  }

  function Lookup(values: map<string, string>, name: string): Option<string> {
    if name in values then Some(values[name]) else None
  }

  /** `parameters.map(...)`: one argument per parameter, in order; the
      first conversion that throws ends it. */
  function ConvertArgs(params: seq<Parameter>, values: map<string, string>): (r: Result<seq<CallArg>, DeployError>)
    ensures r.Ok? ==> |r.value| == |params|
    ensures r.Ok? ==> forall i :: 0 <= i < |params| ==> ConvertArg(params[i], Lookup(values, params[i].name)) == Ok(r.value[i])
    ensures r.Err? ==> exists i :: 0 <= i < |params| && ConvertArg(params[i], Lookup(values, params[i].name)) == Err(r.error)
                                   && forall j :: 0 <= j < i ==> ConvertArg(params[j], Lookup(values, params[j].name)).Ok?
  {
    if params == [] then Ok([])
    else match ConvertArg(params[0], Lookup(values, params[0].name))
      case Err(e) => Err(e)
      case Ok(a) =>
        match ConvertArgs(params[1..], values)
        case Err(e) => Err(e)
        case Ok(rest) => Ok([a] + rest)
  }

  /** `${selectedContract.split('/').pop().replace('.ts', '')}Contract`. */
  function ContractClassName(selected: string): string {
    RemoveFirst(LastSegment(selected), ".ts") + "Contract"
  }

  /** `replace('.ts', '')` removes the first `.ts` of the file name and
      keeps whatever follows it: `<dir>/<Name>.ts` loads `<Name>Contract`,
      and `<dir>/foo.tsx.ts` looks for `foox.tsContract`. */
  lemma ContractClassNameOf(dir: string, stem: string, rest: string)
    requires '/' !in stem + rest
    requires IndexOf(stem + ".ts", ".ts") == Some(|stem|)
    ensures ContractClassName(dir + "/" + stem + ".ts" + rest) == stem + rest + "Contract"
  {
    var s := stem + ".ts" + rest;
    assert '/' !in s by {
      forall i | 0 <= i < |s|
        ensures s[i] != '/'
      {
        if i < |stem| {
          assert s[i] == (stem + rest)[i];
        } else if i >= |stem| + 3 {
          assert s[i] == (stem + rest)[i - 3];
        }
      }
    }
    LastSegmentAfterSlash(dir, s);
    forall j | 0 <= j < |stem|
      ensures !OccursAt(s, ".ts", j)
    {
      assert !OccursAt(stem + ".ts", ".ts", j);
      assert s[j..j + 3] == (stem + ".ts")[j..j + 3];
    }
    assert OccursAt(s, ".ts", |stem|);
    assert IndexOf(s, ".ts") == Some(|stem|);
    assert s[..|stem|] + s[|stem| + 3..] == stem + rest;
    assert dir + "/" + stem + ".ts" + rest == dir + "/" + s;
  }

  datatype DeployRequest = DeployRequest(className: string, args: seq<CallArg>)

  /** `handleDeploy` up to the foreign deploy call: the three guards in
      order, then the arguments. */
  function PrepareDeploy(hasWallet: bool, target: string, selected: string,
                         params: seq<Parameter>, values: map<string, string>): Result<DeployRequest, DeployError>
  {
    if !hasWallet then Err(NoWallet)
    else if target == "" then Err(NoTarget)
    else if selected == "" then Err(NoContract)
    else match ConvertArgs(params, values)
      case Err(e) => Err(e)
      case Ok(args) => Ok(DeployRequest(ContractClassName(selected), args))
  }

  /** The guards run in order — wallet, then target, then contract — and
      any missing precondition yields its own error and no request; with
      all three present the only failure is a value `BigInt` rejects. */
  lemma DeployGuardOrder(hasWallet: bool, target: string, selected: string,
                         params: seq<Parameter>, values: map<string, string>)
    ensures var r := PrepareDeploy(hasWallet, target, selected, params, values);
            && (!hasWallet ==> r == Err(NoWallet))
            && (hasWallet && target == "" ==> r == Err(NoTarget))
            && (hasWallet && target != "" && selected == "" ==> r == Err(NoContract))
            && (hasWallet && target != "" && selected != "" && r.Err? ==> r.error.NotAnInteger?)
  {
    if hasWallet && target != "" && selected != "" {
      var r := ConvertArgs(params, values);
      if r.Err? {
        var i :| 0 <= i < |params| && ConvertArg(params[i], Lookup(values, params[i].name)) == Err(r.error);
      }
    }
  }

  /** Integer parameters holding the decimal text of `n` become `n`, an
      empty integer becomes 0, `admin` becomes an address, and everything
      else passes through unchanged. */
  lemma ArgumentConversion(p: Parameter, text: string, n: int)
    ensures p.name == "admin" ==> ConvertArg(p, Some(text)) == Ok(Address(Some(text)))
    ensures p.name != "admin" && p.kind == "integer" ==> ConvertArg(p, Some(IntText(n))) == Ok(BigInt(n))
    ensures p.name != "admin" && p.kind == "integer" ==> ConvertArg(p, Some("")) == Ok(BigInt(0))
    ensures p.name != "admin" && p.kind != "integer" ==> ConvertArg(p, Some(text)) == Ok(Raw(Some(text)))
  {
    IntTextRoundTrip(n);
    BlankIsZero("");
  }

  // ---- DeploySection ----

  /** `disabled={!wallet || deploying || !targetProject || !selectedContract}`. */
  predicate DeployDisabled(hasWallet: bool, deploying: bool, target: string, selected: string) {
    !hasWallet || deploying || target == "" || selected == ""
  }

  /** The Deploy button and the handler agree: when the button is enabled
      none of the handler's guards fires, and whenever a guard would fire
      the button is disabled. */
  lemma ButtonMatchesGuards(hasWallet: bool, deploying: bool, target: string, selected: string,
                            params: seq<Parameter>, values: map<string, string>)
    ensures var r := PrepareDeploy(hasWallet, target, selected, params, values);
            (r.Err? && !r.error.NotAnInteger?) ==> DeployDisabled(hasWallet, deploying, target, selected)
    ensures !deploying ==>
            (DeployDisabled(hasWallet, deploying, target, selected)
             <==> PrepareDeploy(hasWallet, target, selected, params, values) in
                  {Err(NoWallet), Err(NoTarget), Err(NoContract)})
  {
    DeployGuardOrder(hasWallet, target, selected, params, values);
  }

  /** With only `.json` output and no `.ts` artifact, deploying is offered
      but the Deploy button stays disabled, since no contract is selected. */
  lemma JsonOnlyCannotDeploy(artifactsFiles: seq<FileInfo>, targetFiles: seq<FileInfo>, hasWallet: bool,
                             deploying: bool, target: string)
    requires forall f :: f in artifactsFiles ==> !EndsWith(f.path, ".ts")
    requires exists f :: f in targetFiles && EndsWith(f.path, ".json")
    ensures var a := CheckDeployAvailability(artifactsFiles, targetFiles);
            a.canDeploy && DeployDisabled(hasWallet, deploying, target, a.selected)
  {
    AvailabilityCharacterized(artifactsFiles, targetFiles);
  }

  /** `file.split('/').slice(-2).join('/')`: an artifact's option label. */
  function ArtifactLabel(path: string): string {
    LastSegments(path, 2)
  }

  /** The label is a suffix of the path made of exactly its last two
      segments (its only segment, for a path without `/`). */
  lemma ArtifactLabelSegments(path: string)
    ensures EndsWith(path, ArtifactLabel(path))
    ensures var parts := Split(path, '/');
            Split(ArtifactLabel(path), '/') == parts[|parts| - Min(2, |parts|)..]
    ensures '/' !in path ==> ArtifactLabel(path) == path
  {
    var parts := Split(path, '/');
    var k := |parts| - Min(2, |parts|);
    JoinSplit(path, '/');
    JoinTailIsSuffix(parts, "/", k);
    SplitJoin(parts[k..], '/');
    if '/' !in path {
      assert CharIndex(path, '/').None?;
      assert parts == [path];
    }
  }

  /** DeploySection's artifact options: one per JSON file, in order,
      valued by the full path and labelled by its last two segments. */
  function ArtifactOptions(jsonFiles: seq<string>): seq<(string, string)> {
    seq(|jsonFiles|, i requires 0 <= i < |jsonFiles| => (jsonFiles[i], ArtifactLabel(jsonFiles[i])))
  }

  /** Each option selects the full path and shows a suffix of it. */
  lemma ArtifactOptionsLabelled(jsonFiles: seq<string>)
    ensures var options := ArtifactOptions(jsonFiles);
            && |options| == |jsonFiles|
            && forall i :: 0 <= i < |jsonFiles| ==> options[i].0 == jsonFiles[i] && EndsWith(jsonFiles[i], options[i].1)
  {
    forall i | 0 <= i < |jsonFiles| {
      ArtifactLabelSegments(jsonFiles[i]);
    }
  }

  /** The panel's contract options: one per `.ts` file, valued by the full
      path and labelled by `file.split('/').pop()`. */
  function ContractOptions(contractFiles: seq<string>): seq<(string, string)> {
    seq(|contractFiles|, i requires 0 <= i < |contractFiles| => (contractFiles[i], LastSegment(contractFiles[i])))
  }

  /** Each contract option selects the full path and shows its file name:
      a slash-free suffix, the whole path only when it has no `/`. */
  lemma ContractOptionsLabelled(contractFiles: seq<string>)
    ensures var options := ContractOptions(contractFiles);
            && |options| == |contractFiles|
            && forall i :: 0 <= i < |contractFiles| ==>
                 && options[i].0 == contractFiles[i]
                 && EndsWith(contractFiles[i], options[i].1)
                 && '/' !in options[i].1
                 && (options[i].1 == contractFiles[i] <==> '/' !in contractFiles[i])
  {
    forall i | 0 <= i < |contractFiles| {
      LastSegmentIsSuffix(contractFiles[i]);
    }
  }

  /** `paramValues[name] || ''`: the value shown in a parameter input. */
  function ShownValue(values: map<string, string>, name: string): (shown: string)
    ensures name in values ==> shown == values[name]
    ensures name !in values ==> shown == ""
  {
    if name in values && values[name] != "" then values[name] else ""
  }
}
