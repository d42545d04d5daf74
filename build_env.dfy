/**
 * The `build-env` command: it resolves the deployment identity of one build
 * item (account, region, repository, image URL), collects the environment
 * variables the build and deploy steps need, and, when a deploy target is
 * given, assembles a task-definition manifest from its template
 * (image rewrite, forced STAGE/VERSION, merged secrets).
 *
 * The loaded configuration is an input (already validated). The process
 * environment is a parameter. The collaborators the command calls
 * (build-argument resolution, resource resolution, per-container
 * environment resolution, SSM path resolution, JSON serialisation) are
 * uninterpreted functions bundled in `Collaborators`.
 */
module BuildEnv {
  import opened Wrappers
  import opened Strings
  import opened Dict

  /** An optional string field of a configuration object; None is `undefined`. */
  type Field = Option<string>

  /** JavaScript truthiness of an optional string. */
  predicate Truthy(f: Field) {
    f.Some? && f.value != ""
  }

  /** `a || b` on optional strings. */
  function Or(a: Field, b: Field): Field {
    if Truthy(a) then a else b
  }

  /** `${f}` in a template literal. */
  function Text(f: Field): string {
    if f.Some? then f.value else "undefined"
  }

  datatype BuildItem = BuildItem(
    name: string, accountId: Field, region: Field, repoName: Field,
    dockerfile: Field, platform: Field)

  /** One entry of a task definition's `containerDefinitions` in the config. */
  datatype ContainerConfig = ContainerConfig(
    name: string, image: Field, secrets: Option<Dict<string>>)

  datatype TaskDefinitionConfig = TaskDefinitionConfig(
    name: Field, target: Field,
    taskFamily: Field, serviceName: Field, clusterName: Field,
    template: string, containerDefinitions: seq<ContainerConfig>)

  /** The stage configuration as the command reads it. */
  datatype DeployConfig = DeployConfig(
    accountId: Field, region: Field,
    taskFamily: Field, serviceName: Field, clusterName: Field,
    build: Option<seq<BuildItem>>,
    taskDefinition: Option<seq<TaskDefinitionConfig>>)

  datatype Argv = Argv(
    pwd: string, stage: string, release: string,
    appVersion: Field, container: Field, target: Field)

  datatype EnvPair = EnvPair(name: string, value: Field)

  datatype SecretRef = SecretRef(name: Field, valueFrom: Field)

  /**
   * A template container: the fields the command reads or rewrites, and its
   * other fields (cpu, memory, portMappings, ...) as their JSON text, which
   * the command carries into the manifest unchanged.
   */
  datatype TemplateContainer = TemplateContainer(
    name: Field, image: Field,
    environment: Option<seq<EnvPair>>, secrets: Option<seq<SecretRef>>,
    others: Dict<string>)

  /**
   * A task-definition template: its container definitions, and its other
   * fields (family, volumes, ...) as their JSON text, which the command carries
   * into the manifest unchanged.
   */
  datatype Template = Template(containerDefinitions: Option<seq<TemplateContainer>>, fields: Dict<string>)

  datatype Collaborators = Collaborators(
    /** resolveBuildargs(argv, region, buildItem) */
    buildArgs: (Argv, string, BuildItem) -> Dict<string>,
    /** resolveResource(template, {awsRegion, release, stage, cwd}) followed by JSON parsing */
    resolveTemplate: (string, string, Argv) -> Result<Template, string>,
    /** resolveEnvDict(argv, region, templateContainer, configContainer) */
    envDict: (Argv, string, TemplateContainer, ContainerConfig) -> Dict<string>,
    /** resolveSSMPath({arn, accountId, region}) */
    ssmPath: (string, string, string) -> string,
    /** JSON.stringify of the manifest */
    serialize: Template -> string)

  datatype BuildError =
    | AccountIdNotDefined
    | RegionNotDefined
    | RepoNameNotDefined
    | TaskDefinitionNotFound(target: string)
    | ContainerNotFound(name: string)
    | StageMismatch(stage: string)
    | ResourceError(message: string)

  function Message(e: BuildError): string {
    match e
    case AccountIdNotDefined => "accountId not defined"
    case RegionNotDefined => "region not defined"
    case RepoNameNotDefined => "repoName not defined"
    case TaskDefinitionNotFound(t) => "Task definition not found for target " + t
    case ContainerNotFound(n) => "Container " + n + " not found in template"
    case StageMismatch(s) => "Stage mismatch - tried to deploy to " + s
    case ResourceError(m) => m
  }

  /** What the command prints (as INI) and the manifest it serialised, if any. */
  datatype Output = Output(env: Dict<Field>, manifest: Option<Template>)

  // ---------------------------------------------------------------------
  // Lookups (`Array.prototype.find`)
  // ---------------------------------------------------------------------

  /** Index of the first build item whose name is `name`. */
  function FindBuild(items: seq<BuildItem>, name: Field): (r: Option<nat>)
    ensures r.Some? ==> r.value < |items| && Some(items[r.value].name) == name
    ensures r.Some? ==> forall j | 0 <= j < r.value :: Some(items[j].name) != name
    ensures r.None? ==> forall j | 0 <= j < |items| :: Some(items[j].name) != name
  {
    if items == [] then None
    else if Some(items[0].name) == name then Some(0)
    else match FindBuild(items[1..], name)
      case None => None
      case Some(i) => Some(i + 1)
  }

  /** `config.build?.find(x => x.name === name)` */
  function BuildNamed(build: Option<seq<BuildItem>>, name: Field): Option<BuildItem> {
    if build.None? then None
    else match FindBuild(build.value, name)
      case None => None
      case Some(i) => Some(build.value[i])
  }

  predicate Selects(td: TaskDefinitionConfig, target: Field) {
    td.name == target || td.target == target
  }

  /** Index of the first task definition whose name or target is `target`. */
  function FindTaskDefinition(tds: seq<TaskDefinitionConfig>, target: Field): (r: Option<nat>)
    ensures r.Some? ==> r.value < |tds| && Selects(tds[r.value], target)
    ensures r.Some? ==> forall j | 0 <= j < r.value :: !Selects(tds[j], target)
    ensures r.None? ==> forall j | 0 <= j < |tds| :: !Selects(tds[j], target)
  {
    if tds == [] then None
    else if Selects(tds[0], target) then Some(0)
    else match FindTaskDefinition(tds[1..], target)
      case None => None
      case Some(i) => Some(i + 1)
  }

  /** Index of the first template container whose name is `name`. */
  function FindContainer(defs: seq<TemplateContainer>, name: string): (r: Option<nat>)
    ensures r.Some? ==> r.value < |defs| && defs[r.value].name == Some(name)
    ensures r.Some? ==> forall j | 0 <= j < r.value :: defs[j].name != Some(name)
    ensures r.None? ==> forall j | 0 <= j < |defs| :: defs[j].name != Some(name)
  {
    if defs == [] then None
    else if defs[0].name == Some(name) then Some(0)
    else match FindContainer(defs[1..], name)
      case None => None
      case Some(i) => Some(i + 1)
  }

  /** The search depends on the names only. */
  lemma {:induction false} FindContainerByNames(a: seq<TemplateContainer>, b: seq<TemplateContainer>, name: string)
    requires |a| == |b| && forall j | 0 <= j < |a| :: a[j].name == b[j].name
    ensures FindContainer(a, name) == FindContainer(b, name)
  {
    if a != [] {
      FindContainerByNames(a[1..], b[1..], name);
    }
  }

  // ---------------------------------------------------------------------
  // The environment record
  // ---------------------------------------------------------------------

  const DockerPrefix: string := "DOCKER_"
  const BuildArgPrefix: string := "ECS_DEPLOY_DOCKER_ARGS_"

  /** `{accountId}.dkr.ecr.{region}.amazonaws.com/{repoName}:{release}` */
  function ImageUrl(accountId: string, region: string, repoName: string, release: string): string {
    accountId + ".dkr.ecr." + region + ".amazonaws.com/" + repoName + ":" + release
  }

  function Lift(o: Option<string>): Option<Field> {
    if o.Some? then Some(Some(o.value)) else None
  }

  /** The process variables whose names start with DOCKER_, in process order. */
  function DockerVars(ambient: Dict<string>): Dict<Field>
    decreases |ambient|
  {
    if ambient == [] then []
    else
      var last := ambient[|ambient| - 1];
      var env := DockerVars(ambient[..|ambient| - 1]);
      if StartsWith(last.0, DockerPrefix) then Put(env, last.0, Some(last.1)) else env
  }

  /** The filter/forEach over `process.env` that starts the record. */
  method CopyDockerVars(ambient: Dict<string>) returns (env: Dict<Field>)
    ensures env == DockerVars(ambient)
  {
    env := [];
    var i := 0;
    while i < |ambient|
      invariant 0 <= i <= |ambient|
      invariant env == DockerVars(ambient[..i])
    {
      var (key, value) := ambient[i];
      assert ambient[..i + 1][..i] == ambient[..i];
      if StartsWith(key, DockerPrefix) {
        env := Put(env, key, Some(value));
      }
      i := i + 1;
    }
    assert ambient[..|ambient|] == ambient;
  }

  /** Exactly the DOCKER_ variables of the process are copied, with their values. */
  lemma {:induction false} DockerVarsGet(ambient: Dict<string>, k: string)
    requires Distinct(ambient)
    ensures Get(DockerVars(ambient), k) == if StartsWith(k, DockerPrefix) then Lift(Get(ambient, k)) else None
    decreases |ambient|
  {
    if ambient != [] {
      var init := ambient[..|ambient| - 1];
      var last := ambient[|ambient| - 1];
      assert ambient == init + [last];
      assert Distinct(init) by {
        forall a, b | 0 <= a < b < |init| ensures init[a].0 != init[b].0 {
          assert init[a] == ambient[a] && init[b] == ambient[b];
        }
      }
      DockerVarsGet(init, k);
      GetAppend(init, last.0, last.1, k);
      if k == last.0 {
        GetAbsent(init, last.0);
      }
    }
  }

  /** The `ECS_DEPLOY_DOCKER_ARGS_{k}` assignments, in argument order. */
  function WithBuildArgs(env: Dict<Field>, args: Dict<string>): Dict<Field>
    decreases |args|
  {
    if args == [] then env
    else
      var last := args[|args| - 1];
      Put(WithBuildArgs(env, args[..|args| - 1]), BuildArgPrefix + last.0, Some(last.1))
  }

  method AddBuildArgs(env0: Dict<Field>, args: Dict<string>) returns (env: Dict<Field>)
    ensures env == WithBuildArgs(env0, args)
  {
    env := env0;
    var i := 0;
    while i < |args|
      invariant 0 <= i <= |args|
      invariant env == WithBuildArgs(env0, args[..i])
    {
      var (k, v) := args[i];
      assert args[..i + 1][..i] == args[..i];
      env := Put(env, BuildArgPrefix + k, Some(v));
      i := i + 1;
    }
    assert args[..|args|] == args;
  }

  /** Each build argument `k` lands under the prefixed key; other prefixed keys keep their value. */
  lemma {:induction false} WithBuildArgsGet(env: Dict<Field>, args: Dict<string>, k: string)
    requires Distinct(args)
    ensures Get(WithBuildArgs(env, args), BuildArgPrefix + k) ==
            if Get(args, k).Some? then Lift(Get(args, k)) else Get(env, BuildArgPrefix + k)
    decreases |args|
  {
    if args != [] {
      var init := args[..|args| - 1];
      var last := args[|args| - 1];
      assert args == init + [last];
      assert Distinct(init) by {
        forall a, b | 0 <= a < b < |init| ensures init[a].0 != init[b].0 {
          assert init[a] == args[a] && init[b] == args[b];
        }
      }
      WithBuildArgsGet(env, init, k);
      GetAppend(init, last.0, last.1, k);
      if k == last.0 {
        GetAbsent(init, last.0);
      } else {
        assert (BuildArgPrefix + k)[|BuildArgPrefix|..] == k;
        assert (BuildArgPrefix + last.0)[|BuildArgPrefix|..] == last.0;
      }
    }
  }

  /** Keys outside the build-argument prefix are untouched by the build arguments. */
  lemma {:induction false} WithBuildArgsFrame(env: Dict<Field>, args: Dict<string>, k: string)
    requires !StartsWith(k, BuildArgPrefix)
    ensures Get(WithBuildArgs(env, args), k) == Get(env, k)
    decreases |args|
  {
    if args != [] {
      var last := args[|args| - 1];
      assert (BuildArgPrefix + last.0)[..|BuildArgPrefix|] == BuildArgPrefix;
      WithBuildArgsFrame(env, args[..|args| - 1], k);
    }
  }

  // ---------------------------------------------------------------------
  // Identity resolution
  // ---------------------------------------------------------------------

  /** `container?.accountId || config.accountId` */
  function AccountIdOf(item: Option<BuildItem>, config: DeployConfig): Field {
    Or(if item.Some? then item.value.accountId else None, config.accountId)
  }

  /** `container?.region || config.region` */
  function RegionOf(item: Option<BuildItem>, config: DeployConfig): Field {
    Or(if item.Some? then item.value.region else None, config.region)
  }

  /** The record up to the deploy target, with the resolved account and region. */
  datatype Head = Head(env: Dict<Field>, accountId: string, region: string)

  /** The record through `ECR_DEPLOY_CONTAINER`: process DOCKER_ variables, then the identity keys. */
  function IdentityEnv(ambient: Dict<string>, release: string, accountId: string, region: string, b: BuildItem): Dict<Field> {
    var e0 := Put(DockerVars(ambient), "IMAGE_TAG", Some(release));
    var e1 := Put(Put(e0, "ACCOUNT_ID", Some(accountId)), "AWS_REGION", Some(region));
    var e2 := Put(Put(e1, "ECR_REPOSITORY", b.repoName), "IMAGE_URL", Some(ImageUrl(accountId, region, Text(b.repoName), release)));
    Put(e2, "ECR_DEPLOY_CONTAINER", Some(b.name))
  }

  /** The build arguments, Dockerfile, platform and deploy target keys. */
  function BuildKeys(env: Dict<Field>, args: Dict<string>, b: BuildItem, target: Field): Dict<Field> {
    var e := Put(Put(WithBuildArgs(env, args), "ECR_DEPLOY_DOCKER_FILE", b.dockerfile), "ECR_DEPLOY_PLATFORM", b.platform);
    if Truthy(target) then Put(e, "ECS_DEPLOY_TARGET", target) else e
  }

  function HeadEnv(argv: Argv, config: DeployConfig, ambient: Dict<string>, c: Collaborators): Result<Head, BuildError> {
    var item := BuildNamed(config.build, argv.container);
    var accountId := AccountIdOf(item, config);
    var region := RegionOf(item, config);
    if !Truthy(accountId) then Err(AccountIdNotDefined)
    else if !Truthy(region) then Err(RegionNotDefined)
    else if item.None? || !Truthy(item.value.repoName) then Err(RepoNameNotDefined)
    else
      var env := IdentityEnv(ambient, argv.release, accountId.value, region.value, item.value);
      Ok(Head(BuildKeys(env, c.buildArgs(argv, region.value, item.value), item.value, argv.target), accountId.value, region.value))
  }

  // ---------------------------------------------------------------------
  // One container of the manifest
  // ---------------------------------------------------------------------

  /** The values every container rewrite shares. */
  datatype Context = Context(argv: Argv, config: DeployConfig, accountId: string, region: string, c: Collaborators)

  /** The image after the rewrite: the build item's ECR URI, else the literal image, else the template's. */
  function ImageFor(cc: ContainerConfig, current: Field, x: Context): Field {
    if !Truthy(cc.image) then current
    else match BuildNamed(x.config.build, cc.image)
      case Some(b) => Some(ImageUrl(x.accountId, x.region, Text(b.repoName), x.argv.release))
      case None => cc.image
  }

  /** A string dictionary read as one of present fields. */
  function Lifted(d: Dict<string>): (r: Dict<Field>)
    ensures |r| == |d|
  {
    seq(|d|, i requires 0 <= i < |d| => (d[i].0, Some(d[i].1)))
  }

  /** `envDict` with STAGE and VERSION assigned. */
  function Forced(d: Dict<string>, stage: string, version: Field): Dict<Field> {
    Put(Put(Lifted(d), "STAGE", Some(stage)), "VERSION", version)
  }

  /** `Object.entries(d)` as `{name, value}` pairs. */
  function Pairs(d: Dict<Field>): (r: seq<EnvPair>)
    ensures |r| == |d|
  {
    seq(|d|, i requires 0 <= i < |d| => EnvPair(d[i].0, d[i].1))
  }

  /** A template secret that seeds the dictionary under `n`: named `n` and with a truthy value. */
  predicate Seeds(s: SecretRef, n: string) {
    s.name == Some(n) && n != "" && Truthy(s.valueFrom)
  }

  /** The first update loop: template secrets with both a name and a value. */
  function TemplateSecrets(s: seq<SecretRef>): Dict<string>
    decreases |s|
  {
    if s == [] then []
    else
      var last := s[|s| - 1];
      var d := TemplateSecrets(s[..|s| - 1]);
      if Truthy(last.name) && Truthy(last.valueFrom) then Put(d, last.name.value, last.valueFrom.value) else d
  }

  /** `secretsDict`: template secrets, then config secrets by name. */
  function SecretsDict(template: Option<seq<SecretRef>>, config: Option<Dict<string>>): Dict<string> {
    var seeded := if template.Some? then TemplateSecrets(template.value) else [];
    if config.Some? then Assign(seeded, config.value) else seeded
  }

  /** The two update loops that build `secretsDict`. */
  method BuildSecretsDict(template: Option<seq<SecretRef>>, config: Option<Dict<string>>) returns (d: Dict<string>)
    ensures d == SecretsDict(template, config)
  {
    d := [];
    if template.Some? {
      var s := template.value;
      var i := 0;
      while i < |s|
        invariant 0 <= i <= |s|
        invariant d == TemplateSecrets(s[..i])
      {
        assert s[..i + 1][..i] == s[..i];
        if Truthy(s[i].name) && Truthy(s[i].valueFrom) {
          d := Put(d, s[i].name.value, s[i].valueFrom.value);
        }
        i := i + 1;
      }
      assert s[..|s|] == s;
    }
    if config.Some? {
      var e := config.value;
      ghost var seeded := d;
      var i := 0;
      while i < |e|
        invariant 0 <= i <= |e|
        invariant d == Assign(seeded, e[..i])
      {
        assert e[..i + 1][..i] == e[..i];
        d := Put(d, e[i].0, e[i].1);
        i := i + 1;
      }
      assert e[..|e|] == e;
    }
  }

  /** The `{name, valueFrom}` list, each value resolved to an SSM path. */
  function Resolve(d: Dict<string>, x: Context): (r: seq<SecretRef>)
    ensures |r| == |d|
  {
    seq(|d|, i requires 0 <= i < |d| => SecretRef(Some(d[i].0), Some(x.c.ssmPath(d[i].1, x.accountId, x.region))))
  }

  /** The container with its image set, as the env-dict resolver sees it. */
  function WithImage(tc: TemplateContainer, cc: ContainerConfig, x: Context): TemplateContainer {
    tc.(image := ImageFor(cc, tc.image, x))
  }

  /** The env dict resolved for the container. */
  function EnvDictOf(tc: TemplateContainer, cc: ContainerConfig, x: Context): Dict<string> {
    x.c.envDict(x.argv, x.region, WithImage(tc, cc, x), cc)
  }

  /** The resolved env dict names a different, non-empty stage. */
  predicate StageClash(envDict: Dict<string>, stage: string) {
    Truthy(Get(envDict, "STAGE")) && Get(envDict, "STAGE").value != stage
  }

  /** The rewrite of one template container by its config entry. */
  function Rewritten(tc: TemplateContainer, cc: ContainerConfig, x: Context): (r: Result<TemplateContainer, BuildError>)
    ensures r.Err? <==> StageClash(EnvDictOf(tc, cc, x), x.argv.stage)
    ensures r.Err? ==> r.error == StageMismatch(Get(EnvDictOf(tc, cc, x), "STAGE").value)
    ensures r.Ok? ==> r.value.name == tc.name && r.value.others == tc.others
  {
    var envDict := EnvDictOf(tc, cc, x);
    if StageClash(envDict, x.argv.stage) then Err(StageMismatch(Get(envDict, "STAGE").value))
    else Ok(WithImage(tc, cc, x).(
      environment := Some(Pairs(Forced(envDict, x.argv.stage, x.argv.appVersion))),
      secrets := Some(Resolve(SecretsDict(tc.secrets, cc.secrets), x))))
  }

  /** One iteration of the loop over the configured containers. */
  function RewriteOne(defs: seq<TemplateContainer>, cc: ContainerConfig, x: Context): Result<seq<TemplateContainer>, BuildError> {
    match FindContainer(defs, cc.name)
    case None => Err(ContainerNotFound(cc.name))
    case Some(i) =>
      match Rewritten(defs[i], cc, x)
      case Err(e) => Err(e)
      case Ok(tc) => Ok(defs[i := tc])
  }

  /** The loop over the configured containers, in order. */
  function RewriteAll(defs: seq<TemplateContainer>, ccs: seq<ContainerConfig>, x: Context): Result<seq<TemplateContainer>, BuildError>
    decreases |ccs|
  {
    if ccs == [] then Ok(defs)
    else match RewriteAll(defs, ccs[..|ccs| - 1], x)
      case Err(e) => Err(e)
      case Ok(d) => RewriteOne(d, ccs[|ccs| - 1], x)
  }

  /** The first failing container ends the loop: later containers do not change the error. */
  lemma {:induction false} RewriteAllErrPersists(defs: seq<TemplateContainer>, ccs: seq<ContainerConfig>, n: nat, x: Context)
    requires n <= |ccs| && RewriteAll(defs, ccs[..n], x).Err?
    ensures RewriteAll(defs, ccs, x) == RewriteAll(defs, ccs[..n], x)
    decreases |ccs|
  {
    if n < |ccs| {
      var init := ccs[..|ccs| - 1];
      assert init[..n] == ccs[..n];
      RewriteAllErrPersists(defs, init, n, x);
    } else {
      assert ccs[..n] == ccs;
    }
  }

  /** The in-place rewrite of one template container (image, then environment, then secrets). */
  method RewriteContainer(container: TemplateContainer, cc: ContainerConfig, x: Context) returns (r: Result<TemplateContainer, BuildError>)
    ensures r == Rewritten(container, cc, x)
  {
    var tc := container;
    if Truthy(cc.image) {
      var b := BuildNamed(x.config.build, cc.image);
      if b.Some? {
        tc := tc.(image := Some(ImageUrl(x.accountId, x.region, Text(b.value.repoName), x.argv.release)));
      } else {
        tc := tc.(image := cc.image);
      }
    }
    assert tc == WithImage(container, cc, x);
    var envDict := x.c.envDict(x.argv, x.region, tc, cc);
    var stage := Get(envDict, "STAGE");
    if Truthy(stage) && stage.value != x.argv.stage {
      return Err(StageMismatch(stage.value));
    }
    tc := tc.(environment := Some(Pairs(Forced(envDict, x.argv.stage, x.argv.appVersion))));
    var secrets := BuildSecretsDict(tc.secrets, cc.secrets);
    tc := tc.(secrets := Some(Resolve(secrets, x)));
    return Ok(tc);
  }

  /** The loop over the configured containers, rewriting the copied template's containers in place. */
  method RewriteContainers(defs: array<TemplateContainer>, ccs: seq<ContainerConfig>, x: Context) returns (r: Result<(), BuildError>)
    modifies defs
    ensures RewriteAll(old(defs[..]), ccs, x).Ok? <==> r.Ok?
    ensures r.Ok? ==> defs[..] == RewriteAll(old(defs[..]), ccs, x).value
    ensures r.Err? ==> RewriteAll(old(defs[..]), ccs, x) == Err(r.error)
  {
    var i := 0;
    while i < |ccs|
      invariant 0 <= i <= |ccs|
      invariant RewriteAll(old(defs[..]), ccs[..i], x) == Ok(defs[..])
    {
      var cc := ccs[i];
      ghost var before := defs[..];
      assert ccs[..i + 1][..i] == ccs[..i];
      assert RewriteAll(old(defs[..]), ccs[..i + 1], x) == RewriteOne(before, cc, x);
      var found := FindContainer(defs[..], cc.name);
      if found.None? {
        RewriteAllErrPersists(old(defs[..]), ccs, i + 1, x);
        return Err(ContainerNotFound(cc.name));
      }
      var one := RewriteContainer(defs[found.value], cc, x);
      if one.Err? {
        RewriteAllErrPersists(old(defs[..]), ccs, i + 1, x);
        return Err(one.error);
      }
      defs[found.value] := one.value;
      assert defs[..] == before[found.value := one.value];
      i := i + 1;
    }
    assert ccs[..|ccs|] == ccs;
    return Ok(());
  }

  /** The manifest: the template with its configured containers rewritten. */
  function Assembled(template: Template, ccs: seq<ContainerConfig>, x: Context): (r: Result<Template, BuildError>)
    ensures r.Ok? ==> r.value.fields == template.fields
    ensures r.Ok? ==> (r.value.containerDefinitions.Some? <==> template.containerDefinitions.Some?)
    ensures template.containerDefinitions.None? ==> (r.Ok? <==> ccs == [])
  {
    if template.containerDefinitions.None? then
      if ccs == [] then Ok(template) else Err(ContainerNotFound(ccs[0].name))
    else match RewriteAll(template.containerDefinitions.value, ccs, x)
      case Err(e) => Err(e)
      case Ok(d) => Ok(template.(containerDefinitions := Some(d)))
  }

  // ---------------------------------------------------------------------
  // The command
  // ---------------------------------------------------------------------

  /** The deploy-target part: task-definition keys and the manifest. */
  function TaskStep(h: Head, argv: Argv, config: DeployConfig, c: Collaborators): Result<Output, BuildError> {
    if !Truthy(argv.target) || config.taskDefinition.None? then Ok(Output(h.env, None))
    else match FindTaskDefinition(config.taskDefinition.value, argv.target)
      case None => Err(TaskDefinitionNotFound(argv.target.value))
      case Some(t) =>
        var td := config.taskDefinition.value[t];
        var e1 := Put(h.env, "ECS_TASK_FAMILY", Or(td.taskFamily, config.taskFamily));
        var e2 := Put(e1, "ECS_SERVICE_NAME", Or(td.serviceName, config.serviceName));
        var e3 := Put(e2, "ECS_CLUSTER_NAME", Or(td.clusterName, config.clusterName));
        match c.resolveTemplate(td.template, h.region, argv)
        case Err(m) => Err(ResourceError(m))
        case Ok(template) =>
          match Assembled(template, td.containerDefinitions, Context(argv, config, h.accountId, h.region, c))
          case Err(e) => Err(e)
          case Ok(manifest) => Ok(Output(Put(e3, "ECS_TASK_DEFINITION", Some(c.serialize(manifest))), Some(manifest)))
  }

  function BuildEnvSpec(argv: Argv, config: DeployConfig, ambient: Dict<string>, c: Collaborators): Result<Output, BuildError> {
    match HeadEnv(argv, config, ambient, c)
    case Err(e) => Err(e)
    case Ok(h) => TaskStep(h, argv, config, c)
  }

  /** The record up to the deploy target, filled key by key. */
  method ResolveHead(argv: Argv, config: DeployConfig, ambient: Dict<string>, c: Collaborators) returns (r: Result<Head, BuildError>)
    ensures r == HeadEnv(argv, config, ambient, c)
  {
    var env := CopyDockerVars(ambient);
    env := Put(env, "IMAGE_TAG", Some(argv.release));
    var item := BuildNamed(config.build, argv.container);
    var accountId := AccountIdOf(item, config);
    if !Truthy(accountId) {
      return Err(AccountIdNotDefined);
    }
    env := Put(env, "ACCOUNT_ID", accountId);
    var region := RegionOf(item, config);
    if !Truthy(region) {
      return Err(RegionNotDefined);
    }
    env := Put(env, "AWS_REGION", region);
    if item.None? || !Truthy(item.value.repoName) {
      return Err(RepoNameNotDefined);
    }
    var b := item.value;
    env := Put(env, "ECR_REPOSITORY", b.repoName);
    env := Put(env, "IMAGE_URL", Some(ImageUrl(accountId.value, region.value, b.repoName.value, argv.release)));
    env := Put(env, "ECR_DEPLOY_CONTAINER", Some(b.name));
    assert env == IdentityEnv(ambient, argv.release, accountId.value, region.value, b);
    ghost var identity := env;
    env := AddBuildArgs(env, c.buildArgs(argv, region.value, b));
    env := Put(env, "ECR_DEPLOY_DOCKER_FILE", b.dockerfile);
    env := Put(env, "ECR_DEPLOY_PLATFORM", b.platform);
    if Truthy(argv.target) {
      env := Put(env, "ECS_DEPLOY_TARGET", argv.target);
    }
    assert env == BuildKeys(identity, c.buildArgs(argv, region.value, b), b, argv.target);
    return Ok(Head(env, accountId.value, region.value));
  }

  /** The JSON deep copy of the template, then the container loop on the copy. */
  method Assemble(template: Template, ccs: seq<ContainerConfig>, x: Context) returns (r: Result<Template, BuildError>)
    ensures r == Assembled(template, ccs, x)
  {
    if template.containerDefinitions.None? {
      if ccs != [] {
        return Err(ContainerNotFound(ccs[0].name));
      }
      return Ok(template);
    }
    // The copy has its own array: the rewrite never reaches the template.
    var source := template.containerDefinitions.value;
    var defs := new TemplateContainer[|source|](i requires 0 <= i < |source| => source[i]);
    assert defs[..] == source;
    var rewritten := RewriteContainers(defs, ccs, x);
    if rewritten.Err? {
      return Err(rewritten.error);
    }
    return Ok(template.(containerDefinitions := Some(defs[..])));
  }

  /** The deploy-target part of the command. */
  method DeployTarget(h: Head, argv: Argv, config: DeployConfig, c: Collaborators) returns (r: Result<Output, BuildError>)
    ensures r == TaskStep(h, argv, config, c)
  {
    var env := h.env;
    if !Truthy(argv.target) || config.taskDefinition.None? {
      return Ok(Output(env, None));
    }
    var t := FindTaskDefinition(config.taskDefinition.value, argv.target);
    if t.None? {
      return Err(TaskDefinitionNotFound(argv.target.value));
    }
    var td := config.taskDefinition.value[t.value];
    env := Put(env, "ECS_TASK_FAMILY", Or(td.taskFamily, config.taskFamily));
    env := Put(env, "ECS_SERVICE_NAME", Or(td.serviceName, config.serviceName));
    env := Put(env, "ECS_CLUSTER_NAME", Or(td.clusterName, config.clusterName));
    var template := c.resolveTemplate(td.template, h.region, argv);
    if template.Err? {
      return Err(ResourceError(template.error));
    }
    var manifest := Assemble(template.value, td.containerDefinitions, Context(argv, config, h.accountId, h.region, c));
    if manifest.Err? {
      return Err(manifest.error);
    }
    env := Put(env, "ECS_TASK_DEFINITION", Some(c.serialize(manifest.value)));
    return Ok(Output(env, Some(manifest.value)));
  }

  /** The command: the record, then the deploy target. */
  method BuildEnv(argv: Argv, config: DeployConfig, ambient: Dict<string>, c: Collaborators) returns (r: Result<Output, BuildError>)
    ensures r == BuildEnvSpec(argv, config, ambient, c)
  {
    var h := ResolveHead(argv, config, ambient, c);
    if h.Err? {
      return Err(h.error);
    }
    r := DeployTarget(h.value, argv, config, c);
  }

  // ---------------------------------------------------------------------
  // Properties of the record
  // ---------------------------------------------------------------------

  /** Only DOCKER_ variables enter the record from the process. */
  lemma {:induction false} DockerVarsOnly(ambient: Dict<string>, k: string)
    requires !StartsWith(k, DockerPrefix)
    ensures Get(DockerVars(ambient), k).None?
    decreases |ambient|
  {
    if ambient != [] {
      DockerVarsOnly(ambient[..|ambient| - 1], k);
    }
  }

  /** A DOCKER_ name is never a build-argument key. */
  lemma DockerNotBuildArg(k: string)
    requires StartsWith(k, DockerPrefix)
    ensures !StartsWith(k, BuildArgPrefix)
    ensures k != "IMAGE_TAG" && k != "ACCOUNT_ID" && k != "AWS_REGION" && k != "ECR_REPOSITORY" && k != "IMAGE_URL"
    ensures k != "ECR_DEPLOY_CONTAINER" && k != "ECR_DEPLOY_DOCKER_FILE" && k != "ECR_DEPLOY_PLATFORM" && k != "ECS_DEPLOY_TARGET"
    ensures k != "ECS_TASK_FAMILY" && k != "ECS_SERVICE_NAME" && k != "ECS_CLUSTER_NAME" && k != "ECS_TASK_DEFINITION"
  {
    assert k[0] == k[..|DockerPrefix|][0] == 'D';
  }

  /** The fixed keys of the record are neither DOCKER_ nor build-argument keys. */
  lemma RecordKeys()
    ensures !StartsWith("ECS_DEPLOY_TARGET", DockerPrefix)
    ensures !StartsWith("IMAGE_TAG", BuildArgPrefix) && !StartsWith("ACCOUNT_ID", BuildArgPrefix)
    ensures !StartsWith("AWS_REGION", BuildArgPrefix) && !StartsWith("ECR_REPOSITORY", BuildArgPrefix)
    ensures !StartsWith("IMAGE_URL", BuildArgPrefix) && !StartsWith("ECR_DEPLOY_CONTAINER", BuildArgPrefix)
    ensures !StartsWith("ECS_DEPLOY_TARGET", BuildArgPrefix)
  {
    assert "ECS_DEPLOY_TARGET"[..|DockerPrefix|][0] == 'E';
  }

  /** What IdentityEnv holds under each key it writes, and that it adds no other non-DOCKER_ key. */
  lemma IdentityEnvGet(ambient: Dict<string>, release: string, accountId: string, region: string, b: BuildItem, k: string)
    ensures var env := IdentityEnv(ambient, release, accountId, region, b);
      Get(env, k) ==
        if k == "ECR_DEPLOY_CONTAINER" then Some(Some(b.name))
        else if k == "IMAGE_URL" then Some(Some(ImageUrl(accountId, region, Text(b.repoName), release)))
        else if k == "ECR_REPOSITORY" then Some(b.repoName)
        else if k == "AWS_REGION" then Some(Some(region))
        else if k == "ACCOUNT_ID" then Some(Some(accountId))
        else if k == "IMAGE_TAG" then Some(Some(release))
        else Get(DockerVars(ambient), k)
  {
  }

  /** BuildKeys writes only prefixed keys and its three named keys. */
  lemma BuildKeysFrame(env: Dict<Field>, args: Dict<string>, b: BuildItem, target: Field, k: string)
    requires !StartsWith(k, BuildArgPrefix)
    requires k != "ECR_DEPLOY_DOCKER_FILE" && k != "ECR_DEPLOY_PLATFORM" && k != "ECS_DEPLOY_TARGET"
    ensures Get(BuildKeys(env, args, b, target), k) == Get(env, k)
  {
    WithBuildArgsFrame(env, args, k);
  }

  /** The identity keys of the record before the deploy target. */
  lemma HeadEnvIdentity(argv: Argv, config: DeployConfig, ambient: Dict<string>, c: Collaborators)
    requires HeadEnv(argv, config, ambient, c).Ok?
    ensures var item := BuildNamed(config.build, argv.container);
      var h := HeadEnv(argv, config, ambient, c).value;
      item.Some? && Truthy(item.value.repoName) &&
      Truthy(AccountIdOf(item, config)) && Truthy(RegionOf(item, config)) &&
      h.accountId == AccountIdOf(item, config).value && h.region == RegionOf(item, config).value &&
      Get(h.env, "IMAGE_TAG") == Some(Some(argv.release)) &&
      Get(h.env, "ACCOUNT_ID") == Some(AccountIdOf(item, config)) &&
      Get(h.env, "AWS_REGION") == Some(RegionOf(item, config)) &&
      Get(h.env, "ECR_REPOSITORY") == Some(item.value.repoName) &&
      Get(h.env, "IMAGE_URL") == Some(Some(ImageUrl(h.accountId, h.region, item.value.repoName.value, argv.release))) &&
      Get(h.env, "ECR_DEPLOY_CONTAINER") == Some(Some(item.value.name)) &&
      Get(h.env, "ECR_DEPLOY_DOCKER_FILE") == Some(item.value.dockerfile) &&
      Get(h.env, "ECR_DEPLOY_PLATFORM") == Some(item.value.platform) &&
      Get(h.env, "ECS_DEPLOY_TARGET") == (if Truthy(argv.target) then Some(argv.target) else None)
  {
    var item := BuildNamed(config.build, argv.container);
    var b := item.value;
    var accountId := AccountIdOf(item, config).value;
    var region := RegionOf(item, config).value;
    var args := c.buildArgs(argv, region, b);
    assert HeadEnv(argv, config, ambient, c).value.env ==
      BuildKeys(IdentityEnv(ambient, argv.release, accountId, region, b), args, b, argv.target);
    IdentityKeys(ambient, argv.release, accountId, region, b, args, argv.target);
    OwnBuildKeys(ambient, argv.release, accountId, region, b, args, argv.target);
  }

  /** The identity keys survive the build part of the record. */
  lemma IdentityKeys(ambient: Dict<string>, release: string, accountId: string, region: string, b: BuildItem,
                     args: Dict<string>, target: Field)
    ensures var h := BuildKeys(IdentityEnv(ambient, release, accountId, region, b), args, b, target);
      Get(h, "IMAGE_TAG") == Some(Some(release)) &&
      Get(h, "ACCOUNT_ID") == Some(Some(accountId)) &&
      Get(h, "AWS_REGION") == Some(Some(region)) &&
      Get(h, "ECR_REPOSITORY") == Some(b.repoName) &&
      Get(h, "IMAGE_URL") == Some(Some(ImageUrl(accountId, region, Text(b.repoName), release))) &&
      Get(h, "ECR_DEPLOY_CONTAINER") == Some(Some(b.name))
  {
    var env := IdentityEnv(ambient, release, accountId, region, b);
    RecordKeys();
    BuildKeysFrame(env, args, b, target, "IMAGE_TAG");
    BuildKeysFrame(env, args, b, target, "ACCOUNT_ID");
    BuildKeysFrame(env, args, b, target, "AWS_REGION");
    BuildKeysFrame(env, args, b, target, "ECR_REPOSITORY");
    BuildKeysFrame(env, args, b, target, "IMAGE_URL");
    BuildKeysFrame(env, args, b, target, "ECR_DEPLOY_CONTAINER");
    IdentityEnvGet(ambient, release, accountId, region, b, "IMAGE_TAG");
    IdentityEnvGet(ambient, release, accountId, region, b, "ACCOUNT_ID");
    IdentityEnvGet(ambient, release, accountId, region, b, "AWS_REGION");
    IdentityEnvGet(ambient, release, accountId, region, b, "ECR_REPOSITORY");
    IdentityEnvGet(ambient, release, accountId, region, b, "IMAGE_URL");
    IdentityEnvGet(ambient, release, accountId, region, b, "ECR_DEPLOY_CONTAINER");
  }

  /** The build part writes the Dockerfile, the platform and, when given, the deploy target. */
  lemma OwnBuildKeys(ambient: Dict<string>, release: string, accountId: string, region: string, b: BuildItem,
                     args: Dict<string>, target: Field)
    ensures var h := BuildKeys(IdentityEnv(ambient, release, accountId, region, b), args, b, target);
      Get(h, "ECR_DEPLOY_DOCKER_FILE") == Some(b.dockerfile) &&
      Get(h, "ECR_DEPLOY_PLATFORM") == Some(b.platform) &&
      Get(h, "ECS_DEPLOY_TARGET") == (if Truthy(target) then Some(target) else None)
  {
    if !Truthy(target) {
      var env := IdentityEnv(ambient, release, accountId, region, b);
      RecordKeys();
      WithBuildArgsFrame(env, args, "ECS_DEPLOY_TARGET");
      IdentityEnvGet(ambient, release, accountId, region, b, "ECS_DEPLOY_TARGET");
      DockerVarsOnly(ambient, "ECS_DEPLOY_TARGET");
    }
  }

  /** Keys the deploy-target part does not write keep their value. */
  lemma TaskStepFrame(h: Head, argv: Argv, config: DeployConfig, c: Collaborators, k: string)
    requires TaskStep(h, argv, config, c).Ok?
    requires k != "ECS_TASK_FAMILY" && k != "ECS_SERVICE_NAME" && k != "ECS_CLUSTER_NAME" && k != "ECS_TASK_DEFINITION"
    ensures Get(TaskStep(h, argv, config, c).value.env, k) == Get(h.env, k)
  {
  }

  /**
   * Identity resolution: account and region come from the build item named
   * by `argv.container`, else from the config; the repository only from
   * that build item; each missing value is its own error, in this order.
   * On success the record holds them and the ECR image URL.
   */
  lemma BuildEnvIdentity(argv: Argv, config: DeployConfig, ambient: Dict<string>, c: Collaborators)
    ensures var item := BuildNamed(config.build, argv.container);
      var accountId := AccountIdOf(item, config);
      var region := RegionOf(item, config);
      var r := BuildEnvSpec(argv, config, ambient, c);
      (!Truthy(accountId) ==> r == Err(AccountIdNotDefined)) &&
      (Truthy(accountId) && !Truthy(region) ==> r == Err(RegionNotDefined)) &&
      (Truthy(accountId) && Truthy(region) && (item.None? || !Truthy(item.value.repoName)) ==> r == Err(RepoNameNotDefined)) &&
      (r.Ok? ==>
        item.Some? && Truthy(item.value.repoName) && Truthy(accountId) && Truthy(region) &&
        Get(r.value.env, "IMAGE_TAG") == Some(Some(argv.release)) &&
        Get(r.value.env, "ACCOUNT_ID") == Some(accountId) &&
        Get(r.value.env, "AWS_REGION") == Some(region) &&
        Get(r.value.env, "ECR_REPOSITORY") == Some(item.value.repoName) &&
        Get(r.value.env, "IMAGE_URL") == Some(Some(ImageUrl(accountId.value, region.value, item.value.repoName.value, argv.release))) &&
        Get(r.value.env, "ECR_DEPLOY_CONTAINER") == Some(Some(item.value.name)) &&
        Get(r.value.env, "ECR_DEPLOY_DOCKER_FILE") == Some(item.value.dockerfile) &&
        Get(r.value.env, "ECR_DEPLOY_PLATFORM") == Some(item.value.platform) &&
        Get(r.value.env, "ECS_DEPLOY_TARGET") == (if Truthy(argv.target) then Some(argv.target) else None))
  {
    var r := BuildEnvSpec(argv, config, ambient, c);
    if r.Ok? {
      var h := HeadEnv(argv, config, ambient, c).value;
      HeadEnvIdentity(argv, config, ambient, c);
      TaskStepFrame(h, argv, config, c, "IMAGE_TAG");
      TaskStepFrame(h, argv, config, c, "ACCOUNT_ID");
      TaskStepFrame(h, argv, config, c, "AWS_REGION");
      TaskStepFrame(h, argv, config, c, "ECR_REPOSITORY");
      TaskStepFrame(h, argv, config, c, "IMAGE_URL");
      TaskStepFrame(h, argv, config, c, "ECR_DEPLOY_CONTAINER");
      TaskStepFrame(h, argv, config, c, "ECR_DEPLOY_DOCKER_FILE");
      TaskStepFrame(h, argv, config, c, "ECR_DEPLOY_PLATFORM");
      TaskStepFrame(h, argv, config, c, "ECS_DEPLOY_TARGET");
    }
  }

  /** Every DOCKER_ variable of the process reaches the record unchanged. */
  lemma BuildEnvDockerVars(argv: Argv, config: DeployConfig, ambient: Dict<string>, c: Collaborators, k: string)
    requires Distinct(ambient)
    requires BuildEnvSpec(argv, config, ambient, c).Ok?
    requires StartsWith(k, DockerPrefix)
    ensures Get(BuildEnvSpec(argv, config, ambient, c).value.env, k) == Lift(Get(ambient, k))
  {
    var h := HeadEnv(argv, config, ambient, c).value;
    var item := BuildNamed(config.build, argv.container);
    var b := item.value;
    var accountId := AccountIdOf(item, config).value;
    var region := RegionOf(item, config).value;
    var env := IdentityEnv(ambient, argv.release, accountId, region, b);
    DockerNotBuildArg(k);
    BuildKeysFrame(env, c.buildArgs(argv, region, b), b, argv.target, k);
    IdentityEnvGet(ambient, argv.release, accountId, region, b, k);
    DockerVarsGet(ambient, k);
    TaskStepFrame(h, argv, config, c, k);
  }

  /** Every build argument `k` of the selected build item is in the record as `ECS_DEPLOY_DOCKER_ARGS_{k}`. */
  lemma BuildEnvBuildArgs(argv: Argv, config: DeployConfig, ambient: Dict<string>, c: Collaborators, k: string)
    requires BuildEnvSpec(argv, config, ambient, c).Ok?
    requires var item := BuildNamed(config.build, argv.container);
      item.Some? && Distinct(c.buildArgs(argv, Text(RegionOf(item, config)), item.value)) &&
      Get(c.buildArgs(argv, Text(RegionOf(item, config)), item.value), k).Some?
    ensures var item := BuildNamed(config.build, argv.container);
      Get(BuildEnvSpec(argv, config, ambient, c).value.env, BuildArgPrefix + k) ==
      Lift(Get(c.buildArgs(argv, Text(RegionOf(item, config)), item.value), k))
  {
    var h := HeadEnv(argv, config, ambient, c).value;
    var item := BuildNamed(config.build, argv.container);
    var b := item.value;
    var region := RegionOf(item, config).value;
    var env := IdentityEnv(ambient, argv.release, AccountIdOf(item, config).value, region, b);
    WithBuildArgsGet(env, c.buildArgs(argv, region, b), k);
    var key := BuildArgPrefix + k;
    assert |key| >= |BuildArgPrefix|;
    assert key != "ECR_DEPLOY_DOCKER_FILE" && key != "ECR_DEPLOY_PLATFORM" && key != "ECS_DEPLOY_TARGET";
    assert key != "ECS_TASK_FAMILY" && key != "ECS_SERVICE_NAME" && key != "ECS_CLUSTER_NAME" && key != "ECS_TASK_DEFINITION";
    TaskStepFrame(h, argv, config, c, key);
  }

  /**
   * Deploy target: with a truthy target and task definitions, the first task
   * definition whose name or target matches is used (none is an error);
   * family, service and cluster fall back to the config; the manifest is
   * the resolved template with its configured containers rewritten, and
   * the record holds its serialisation. Otherwise there is no manifest.
   */
  lemma BuildEnvTaskDefinition(argv: Argv, config: DeployConfig, ambient: Dict<string>, c: Collaborators)
    requires HeadEnv(argv, config, ambient, c).Ok?
    ensures var r := BuildEnvSpec(argv, config, ambient, c);
      var h := HeadEnv(argv, config, ambient, c).value;
      ((Truthy(argv.target) && config.taskDefinition.Some? &&
        forall j | 0 <= j < |config.taskDefinition.value| :: !Selects(config.taskDefinition.value[j], argv.target))
        ==> r == Err(TaskDefinitionNotFound(argv.target.value))) &&
      (r.Ok? && (!Truthy(argv.target) || config.taskDefinition.None?) ==> r.value == Output(h.env, None)) &&
      (r.Ok? && Truthy(argv.target) && config.taskDefinition.Some? ==>
        var t := FindTaskDefinition(config.taskDefinition.value, argv.target);
        t.Some? &&
        var td := config.taskDefinition.value[t.value];
        var template := c.resolveTemplate(td.template, h.region, argv);
        template.Ok? && r.value.manifest.Some? &&
        Assembled(template.value, td.containerDefinitions, Context(argv, config, h.accountId, h.region, c)) == Ok(r.value.manifest.value) &&
        Get(r.value.env, "ECS_TASK_FAMILY") == Some(Or(td.taskFamily, config.taskFamily)) &&
        Get(r.value.env, "ECS_SERVICE_NAME") == Some(Or(td.serviceName, config.serviceName)) &&
        Get(r.value.env, "ECS_CLUSTER_NAME") == Some(Or(td.clusterName, config.clusterName)) &&
        Get(r.value.env, "ECS_TASK_DEFINITION") == Some(Some(c.serialize(r.value.manifest.value))))
  {
    var h := HeadEnv(argv, config, ambient, c).value;
    assert BuildEnvSpec(argv, config, ambient, c) == TaskStep(h, argv, config, c);
    TaskStepOutcome(h, argv, config, c);
  }

  /** The deploy-target part on its own, for any record so far. */
  lemma TaskStepOutcome(h: Head, argv: Argv, config: DeployConfig, c: Collaborators)
    ensures var r := TaskStep(h, argv, config, c);
      ((Truthy(argv.target) && config.taskDefinition.Some? &&
        forall j | 0 <= j < |config.taskDefinition.value| :: !Selects(config.taskDefinition.value[j], argv.target))
        ==> r == Err(TaskDefinitionNotFound(argv.target.value))) &&
      (r.Ok? && (!Truthy(argv.target) || config.taskDefinition.None?) ==> r.value == Output(h.env, None)) &&
      (r.Ok? && Truthy(argv.target) && config.taskDefinition.Some? ==>
        var t := FindTaskDefinition(config.taskDefinition.value, argv.target);
        t.Some? &&
        var td := config.taskDefinition.value[t.value];
        var template := c.resolveTemplate(td.template, h.region, argv);
        template.Ok? && r.value.manifest.Some? &&
        Assembled(template.value, td.containerDefinitions, Context(argv, config, h.accountId, h.region, c)) == Ok(r.value.manifest.value) &&
        Get(r.value.env, "ECS_TASK_FAMILY") == Some(Or(td.taskFamily, config.taskFamily)) &&
        Get(r.value.env, "ECS_SERVICE_NAME") == Some(Or(td.serviceName, config.serviceName)) &&
        Get(r.value.env, "ECS_CLUSTER_NAME") == Some(Or(td.clusterName, config.clusterName)) &&
        Get(r.value.env, "ECS_TASK_DEFINITION") == Some(Some(c.serialize(r.value.manifest.value))))
  {
    if Truthy(argv.target) && config.taskDefinition.Some? {
      var t := FindTaskDefinition(config.taskDefinition.value, argv.target);
      if t.Some? {
        assert Selects(config.taskDefinition.value[t.value], argv.target);
      }
    }
  }

  // ---------------------------------------------------------------------
  // Properties of the manifest
  // ---------------------------------------------------------------------


  lemma {:induction false} LiftedGet(d: Dict<string>, k: string)
    ensures Get(Lifted(d), k) == Lift(Get(d, k))
  {
    if d != [] {
      assert Lifted(d)[1..] == Lifted(d[1..]);
      LiftedGet(d[1..], k);
    }
  }

  /** The rewritten environment always carries STAGE and VERSION as assigned. */
  lemma ForcedPinned(d: Dict<string>, stage: string, version: Field)
    ensures EnvPair("STAGE", Some(stage)) in Pairs(Forced(d, stage, version))
    ensures EnvPair("VERSION", version) in Pairs(Forced(d, stage, version))
  {
    var f := Forced(d, stage, version);
    var i := GetFound(f, "STAGE");
    assert Pairs(f)[i] == EnvPair("STAGE", Some(stage));
    var j := GetFound(f, "VERSION");
    assert Pairs(f)[j] == EnvPair("VERSION", version);
  }

  /**
   * The environment rewrite: one pair per env-dict key plus STAGE and
   * VERSION, names unique, STAGE and VERSION forced, every other name with
   * its env-dict value.
   */
  lemma EnvironmentForced(d: Dict<string>, stage: string, version: Field)
    requires Distinct(d)
    ensures var ps := Pairs(Forced(d, stage, version));
      (forall i, j | 0 <= i < j < |ps| :: ps[i].name != ps[j].name) &&
      EnvPair("STAGE", Some(stage)) in ps && EnvPair("VERSION", version) in ps &&
      (forall i | 0 <= i < |ps| && ps[i].name != "STAGE" && ps[i].name != "VERSION" ::
        Lift(Get(d, ps[i].name)) == Some(ps[i].value)) &&
      (forall k | k != "STAGE" && k != "VERSION" && Get(d, k).Some? :: EnvPair(k, Some(Get(d, k).value)) in ps)
  {
    var l := Lifted(d);
    var f := Forced(d, stage, version);
    var ps := Pairs(f);
    assert Distinct(l) by {
      forall a, b | 0 <= a < b < |l| ensures l[a].0 != l[b].0 {
        assert l[a].0 == d[a].0 && l[b].0 == d[b].0;
      }
    }
    PutDistinct(l, "STAGE", Some(stage));
    PutDistinct(Put(l, "STAGE", Some(stage)), "VERSION", version);
    ForcedPinned(d, stage, version);
    forall i | 0 <= i < |ps| && ps[i].name != "STAGE" && ps[i].name != "VERSION"
      ensures Lift(Get(d, ps[i].name)) == Some(ps[i].value)
    {
      GetAt(f, i);
      LiftedGet(d, f[i].0);
    }
    forall k | k != "STAGE" && k != "VERSION" && Get(d, k).Some?
      ensures EnvPair(k, Some(Get(d, k).value)) in ps
    {
      LiftedGet(d, k);
      var i := GetFound(f, k);
      assert ps[i] == EnvPair(k, Some(Get(d, k).value));
    }
  }

  /** Template secret `i` is the last one that seeds name `n`. */
  predicate LastSeedAt(s: seq<SecretRef>, n: string, i: int) {
    0 <= i < |s| && Seeds(s[i], n) && forall j | i < j < |s| :: !Seeds(s[j], n)
  }

  /** The last seeding template secret for `n` has value `v`. */
  ghost predicate LastSeed(s: seq<SecretRef>, n: string, v: string) {
    exists i | LastSeedAt(s, n, i) :: s[i].valueFrom == Some(v)
  }

  /** The template loop keeps, per name, the last template secret with that name and a value. */
  lemma {:induction false} TemplateSecretsGet(s: seq<SecretRef>, n: string, v: string)
    ensures Get(TemplateSecrets(s), n) == Some(v) <==> LastSeed(s, n, v)
    decreases |s|
  {
    if s != [] {
      var init := s[..|s| - 1];
      var last := s[|s| - 1];
      assert s == init + [last];
      TemplateSecretsGet(init, n, v);
      if Seeds(last, n) {
        assert Get(TemplateSecrets(s), n) == last.valueFrom;
        if LastSeed(s, n, v) {
          var i :| LastSeedAt(s, n, i) && s[i].valueFrom == Some(v);
          assert i == |s| - 1;
        }
        if last.valueFrom == Some(v) {
          assert LastSeedAt(s, n, |s| - 1);
        }
      } else {
        assert Get(TemplateSecrets(s), n) == Get(TemplateSecrets(init), n);
        if LastSeed(s, n, v) {
          var i :| LastSeedAt(s, n, i) && s[i].valueFrom == Some(v);
          LastSeedAtInit(init, last, n, i);
        }
        if LastSeed(init, n, v) {
          var i :| LastSeedAt(init, n, i) && init[i].valueFrom == Some(v);
          LastSeedAtSnoc(init, last, n, i);
        }
      }
    }
  }

  /** A last secret that does not seed `n` keeps the last one that does. */
  lemma LastSeedAtSnoc(init: seq<SecretRef>, last: SecretRef, n: string, i: int)
    requires LastSeedAt(init, n, i) && !Seeds(last, n)
    ensures LastSeedAt(init + [last], n, i) && (init + [last])[i] == init[i]
  {
    var s := init + [last];
    forall j | i < j < |s| ensures !Seeds(s[j], n) {
      if j < |init| { assert s[j] == init[j]; }
    }
  }

  /** ... and dropping it again does too. */
  lemma LastSeedAtInit(init: seq<SecretRef>, last: SecretRef, n: string, i: int)
    requires LastSeedAt(init + [last], n, i) && !Seeds(last, n)
    ensures LastSeedAt(init, n, i) && (init + [last])[i] == init[i]
  {
    var s := init + [last];
    assert i < |init|;
    forall j | i < j < |init| ensures !Seeds(init[j], n) {
      assert s[j] == init[j];
    }
  }

  lemma {:induction false} TemplateSecretsDistinct(s: seq<SecretRef>)
    ensures Distinct(TemplateSecrets(s))
    decreases |s|
  {
    if s != [] {
      var last := s[|s| - 1];
      TemplateSecretsDistinct(s[..|s| - 1]);
      if Truthy(last.name) && Truthy(last.valueFrom) {
        PutDistinct(TemplateSecrets(s[..|s| - 1]), last.name.value, last.valueFrom.value);
      }
    }
  }

  /** Secret `n` resolves from `v`: the config's entry wins, else the last seeding template entry. */
  ghost predicate Wins(template: Option<seq<SecretRef>>, config: Option<Dict<string>>, n: string, v: string) {
    if config.Some? && Get(config.value, n).Some? then Get(config.value, n) == Some(v)
    else template.Some? && LastSeed(template.value, n, v)
  }

  lemma SecretsDictGet(template: Option<seq<SecretRef>>, config: Option<Dict<string>>, n: string, v: string)
    requires config.Some? ==> Distinct(config.value)
    ensures Get(SecretsDict(template, config), n) == Some(v) <==> Wins(template, config, n, v)
  {
    var seeded := if template.Some? then TemplateSecrets(template.value) else [];
    if config.Some? {
      AssignGet(seeded, config.value, n);
    }
    if template.Some? {
      TemplateSecretsGet(template.value, n, v);
    }
  }

  /**
   * The secret merge: the output names are unique; each secret's value is
   * the SSM path of its winning value (config over template, template
   * entries without a name or value dropped); every winning pair is present.
   */
  lemma SecretsMerge(template: Option<seq<SecretRef>>, config: Option<Dict<string>>, x: Context)
    requires config.Some? ==> Distinct(config.value)
    ensures var out := Resolve(SecretsDict(template, config), x);
      (forall i, j | 0 <= i < j < |out| :: out[i].name != out[j].name) &&
      (forall i | 0 <= i < |out| :: out[i].name.Some? &&
        exists v :: Wins(template, config, out[i].name.value, v) && out[i].valueFrom == Some(x.c.ssmPath(v, x.accountId, x.region))) &&
      (forall n, v | Wins(template, config, n, v) :: SecretRef(Some(n), Some(x.c.ssmPath(v, x.accountId, x.region))) in out)
  {
    var seeded := if template.Some? then TemplateSecrets(template.value) else [];
    var d := SecretsDict(template, config);
    var out := Resolve(d, x);
    if template.Some? {
      TemplateSecretsDistinct(template.value);
    }
    if config.Some? {
      AssignKeepsOrder(seeded, config.value);
    }
    assert Distinct(d);
    forall i | 0 <= i < |out|
      ensures out[i].name.Some? &&
        exists v :: Wins(template, config, out[i].name.value, v) && out[i].valueFrom == Some(x.c.ssmPath(v, x.accountId, x.region))
    {
      GetAt(d, i);
      SecretsDictGet(template, config, d[i].0, d[i].1);
    }
    forall n, v | Wins(template, config, n, v)
      ensures SecretRef(Some(n), Some(x.c.ssmPath(v, x.accountId, x.region))) in out
    {
      SecretsDictGet(template, config, n, v);
      var i := GetFound(d, n);
      assert out[i] == SecretRef(Some(n), Some(x.c.ssmPath(v, x.accountId, x.region)));
    }
  }

  /**
   * One rewritten container: same name; image from the matching build item,
   * else the configured literal, else the template's; environment with the
   * env dict plus forced STAGE/VERSION; secrets merged as in SecretsMerge;
   * every other field as it was.
   */
  lemma RewrittenContainer(tc: TemplateContainer, cc: ContainerConfig, x: Context)
    requires Rewritten(tc, cc, x).Ok?
    requires Distinct(EnvDictOf(tc, cc, x))
    ensures var out := Rewritten(tc, cc, x).value;
      var envDict := EnvDictOf(tc, cc, x);
      out.name == tc.name && out.others == tc.others &&
      (!Truthy(cc.image) ==> out.image == tc.image) &&
      (Truthy(cc.image) && BuildNamed(x.config.build, cc.image).Some? ==>
        out.image == Some(ImageUrl(x.accountId, x.region, Text(BuildNamed(x.config.build, cc.image).value.repoName), x.argv.release))) &&
      (Truthy(cc.image) && BuildNamed(x.config.build, cc.image).None? ==> out.image == cc.image) &&
      out.environment.Some? && out.secrets.Some? &&
      var ps := out.environment.value;
      (forall i, j | 0 <= i < j < |ps| :: ps[i].name != ps[j].name) &&
      EnvPair("STAGE", Some(x.argv.stage)) in ps && EnvPair("VERSION", x.argv.appVersion) in ps &&
      (forall i | 0 <= i < |ps| && ps[i].name != "STAGE" && ps[i].name != "VERSION" ::
        Lift(Get(envDict, ps[i].name)) == Some(ps[i].value)) &&
      (forall k | k != "STAGE" && k != "VERSION" && Get(envDict, k).Some? :: EnvPair(k, Some(Get(envDict, k).value)) in ps) &&
      out.secrets.value == Resolve(SecretsDict(tc.secrets, cc.secrets), x)
  {
    EnvironmentForced(EnvDictOf(tc, cc, x), x.argv.stage, x.argv.appVersion);
  }

  /** A container the loop has rewritten. */
  predicate Deployed(tc: TemplateContainer, stage: string, version: Field) {
    tc.environment.Some? && tc.secrets.Some? &&
    EnvPair("STAGE", Some(stage)) in tc.environment.value &&
    EnvPair("VERSION", version) in tc.environment.value
  }

  /**
   * The container loop: the template keeps its length, and each container
   * its name and other fields; every configured container exists in the
   * template and its (first) template container ends up deployed; a
   * container configured under a name no other config entry uses is exactly
   * its rewrite; template containers that no config entry names are
   * untouched.
   */
  lemma {:induction false} RewriteAllFrame(defs: seq<TemplateContainer>, ccs: seq<ContainerConfig>, x: Context)
    requires RewriteAll(defs, ccs, x).Ok?
    ensures FrameKept(defs, ccs, RewriteAll(defs, ccs, x).value, x.argv.stage, x.argv.appVersion)
    ensures RewrittenOnce(defs, ccs, RewriteAll(defs, ccs, x).value, x)
    decreases |ccs|
  {
    if ccs != [] {
      var init := ccs[..|ccs| - 1];
      var last := ccs[|ccs| - 1];
      RewriteAllFrame(defs, init, x);
      var mid := RewriteAll(defs, init, x).value;
      FindContainerByNames(mid, defs, last.name);
      var i := FindContainer(mid, last.name).value;
      var tc := Rewritten(mid[i], last, x).value;
      assert RewriteAll(defs, ccs, x).value == mid[i := tc];
      ForcedPinned(EnvDictOf(mid[i], last, x), x.argv.stage, x.argv.appVersion);
      FrameStep(defs, ccs, mid, i, tc, x.argv.stage, x.argv.appVersion);
      if NamedOnce(ccs, |ccs| - 1) {
        UntouchedLast(defs, ccs, mid, i, x.argv.stage, x.argv.appVersion);
        OnceStepNamed(defs, ccs, mid, i, tc, x);
      } else {
        OnceStepShared(defs, ccs, mid, i, tc, x);
      }
    } else {
      assert FrameKept(defs, ccs, defs, x.argv.stage, x.argv.appVersion);
    }
  }

  /** Config entry `k` is the only one with its container name. */
  predicate NamedOnce(ccs: seq<ContainerConfig>, k: int) {
    0 <= k < |ccs| && forall m | 0 <= m < |ccs| && m != k :: ccs[m].name != ccs[k].name
  }

  /** The template container `cc` names is, in `out`, its rewrite by `cc`. */
  predicate RewrittenAt(defs: seq<TemplateContainer>, cc: ContainerConfig, out: seq<TemplateContainer>, x: Context) {
    var f := FindContainer(defs, cc.name);
    f.Some? && f.value < |out| && Rewritten(defs[f.value], cc, x) == Ok(out[f.value])
  }

  /** Every container configured under a name of its own is its rewrite of the template's. */
  predicate RewrittenOnce(defs: seq<TemplateContainer>, ccs: seq<ContainerConfig>, out: seq<TemplateContainer>, x: Context) {
    forall k | 0 <= k < |ccs| && NamedOnce(ccs, k) :: RewrittenAt(defs, ccs[k], out, x)
  }

  /** A last entry whose name no earlier entry used finds its container untouched. */
  lemma UntouchedLast(defs: seq<TemplateContainer>, ccs: seq<ContainerConfig>, mid: seq<TemplateContainer>,
                      i: nat, stage: string, version: Field)
    requires |ccs| >= 1 && FrameKept(defs, ccs[..|ccs| - 1], mid, stage, version)
    requires NamedOnce(ccs, |ccs| - 1) && FindContainer(defs, ccs[|ccs| - 1].name) == Some(i)
    ensures i < |mid| && mid[i] == defs[i]
  {
    var init := ccs[..|ccs| - 1];
    forall m | 0 <= m < |init| ensures defs[i].name != Some(init[m].name) {
      assert init[m] == ccs[m];
    }
  }

  /** One more configured container, under a name of its own, keeps RewrittenOnce. */
  lemma OnceStepNamed(defs: seq<TemplateContainer>, ccs: seq<ContainerConfig>, mid: seq<TemplateContainer>,
                      i: nat, tc: TemplateContainer, x: Context)
    requires |ccs| >= 1 && RewrittenOnce(defs, ccs[..|ccs| - 1], mid, x)
    requires FindContainer(defs, ccs[|ccs| - 1].name) == Some(i) && i < |mid| && mid[i] == defs[i]
    requires Rewritten(mid[i], ccs[|ccs| - 1], x) == Ok(tc)
    ensures RewrittenOnce(defs, ccs, mid[i := tc], x)
  {
    forall k | 0 <= k < |ccs| && NamedOnce(ccs, k) ensures RewrittenAt(defs, ccs[k], mid[i := tc], x) {
      if k < |ccs| - 1 {
        OnceEarlier(defs, ccs, mid, i, tc, x, k);
      } else {
        OnceLast(defs, ccs[k], mid, i, tc, x);
      }
    }
  }

  /** One more configured container, under a name used before, keeps RewrittenOnce. */
  lemma OnceStepShared(defs: seq<TemplateContainer>, ccs: seq<ContainerConfig>, mid: seq<TemplateContainer>,
                       i: nat, tc: TemplateContainer, x: Context)
    requires |ccs| >= 1 && RewrittenOnce(defs, ccs[..|ccs| - 1], mid, x) && !NamedOnce(ccs, |ccs| - 1)
    requires FindContainer(defs, ccs[|ccs| - 1].name) == Some(i) && i < |mid|
    ensures RewrittenOnce(defs, ccs, mid[i := tc], x)
  {
    forall k | 0 <= k < |ccs| && NamedOnce(ccs, k) ensures RewrittenAt(defs, ccs[k], mid[i := tc], x) {
      OnceEarlier(defs, ccs, mid, i, tc, x, k);
    }
  }

  /** The entry just applied, found untouched, leaves its rewrite in place. */
  lemma OnceLast(defs: seq<TemplateContainer>, cc: ContainerConfig, mid: seq<TemplateContainer>,
                 i: nat, tc: TemplateContainer, x: Context)
    requires FindContainer(defs, cc.name) == Some(i) && i < |mid| && mid[i] == defs[i]
    requires Rewritten(mid[i], cc, x) == Ok(tc)
    ensures RewrittenAt(defs, cc, mid[i := tc], x)
  {
  }

  /** An earlier entry under a name of its own keeps its rewritten container. */
  lemma OnceEarlier(defs: seq<TemplateContainer>, ccs: seq<ContainerConfig>, mid: seq<TemplateContainer>,
                    i: nat, tc: TemplateContainer, x: Context, k: nat)
    requires k < |ccs| - 1 && NamedOnce(ccs, k) && RewrittenOnce(defs, ccs[..|ccs| - 1], mid, x)
    requires FindContainer(defs, ccs[|ccs| - 1].name) == Some(i) && i < |mid|
    ensures RewrittenAt(defs, ccs[k], mid[i := tc], x)
  {
    var init := ccs[..|ccs| - 1];
    assert init[k] == ccs[k];
    assert NamedOnce(init, k) by {
      forall m | 0 <= m < |init| && m != k ensures init[m].name != init[k].name {
        assert init[m] == ccs[m];
      }
    }
    assert RewrittenAt(defs, init[k], mid, x);
    assert ccs[k].name != ccs[|ccs| - 1].name;
  }

  /** What the container loop keeps after the configured containers `ccs`. */
  predicate FrameKept(defs: seq<TemplateContainer>, ccs: seq<ContainerConfig>, out: seq<TemplateContainer>, stage: string, version: Field) {
    |out| == |defs| &&
    (forall j | 0 <= j < |out| :: out[j].name == defs[j].name && out[j].others == defs[j].others) &&
    (forall j | 0 <= j < |out| && (forall k | 0 <= k < |ccs| :: defs[j].name != Some(ccs[k].name)) :: out[j] == defs[j]) &&
    (forall k | 0 <= k < |ccs| :: var f := FindContainer(defs, ccs[k].name);
      f.Some? && f.value < |out| && Deployed(out[f.value], stage, version))
  }

  /** One more configured container keeps FrameKept. */
  lemma FrameStep(defs: seq<TemplateContainer>, ccs: seq<ContainerConfig>, mid: seq<TemplateContainer>,
                  i: nat, tc: TemplateContainer, stage: string, version: Field)
    requires |ccs| >= 1 && FrameKept(defs, ccs[..|ccs| - 1], mid, stage, version)
    requires FindContainer(defs, ccs[|ccs| - 1].name) == Some(i)
    requires tc.name == mid[i].name && tc.others == mid[i].others && Deployed(tc, stage, version)
    ensures FrameKept(defs, ccs, mid[i := tc], stage, version)
  {
    var init := ccs[..|ccs| - 1];
    var out := mid[i := tc];
    assert forall k | 0 <= k < |init| :: init[k] == ccs[k];
    forall j | 0 <= j < |out| && (forall k | 0 <= k < |ccs| :: defs[j].name != Some(ccs[k].name))
      ensures out[j] == defs[j]
    {
      assert defs[j].name != Some(ccs[|ccs| - 1].name);
    }
    forall k | 0 <= k < |ccs|
      ensures var f := FindContainer(defs, ccs[k].name); f.Some? && f.value < |out| && Deployed(out[f.value], stage, version)
    {
      var f := FindContainer(defs, ccs[k].name).value;
      if f != i {
        assert k < |init|;
      }
    }
  }
}
