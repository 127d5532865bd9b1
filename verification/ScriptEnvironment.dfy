/** The environment variables of a script (`_build_script_environment`). */
module ScriptEnvironment {
  import opened Wrappers
  import opened Secrets
  import Sandbox

  type Env = map<string, string>

  /** What a webhook request passes on, with the JSON parts already dumped. */
  datatype Webhook = Webhook(
    requestMethod: string,
    query: string,
    contentType: string,
    body: Option<string>,
    bodyJson: Option<string>,
    inbound: Option<Inbound>)

  datatype Inbound = Inbound(channel: string, text: string, replyRef: string, sender: string)

  datatype ScriptInfo = ScriptInfo(id: string, name: string, owner: string)

  /** `workspace` is the run's workspace or else the default one. */
  datatype RunInfo = RunInfo(id: string, token: string, workspace: Option<string>, script: Option<ScriptInfo>)

  datatype Host = Host(
    env: Env,
    denied: set<string>,
    dbPath: Option<string>,  // None unless the database is SQLite
    internalUrl: string,
    helpers: string)

  /** `ClaudeService.get_script_env()`, empty when AI is off, and `conflicting_env_keys()`. */
  datatype Ai = Ai(vars: Env, conflicting: set<string>)

  function AsMap(d: Dict<string>): Env {
    if d == [] then map[] else AsMap(d[1..])[d[0].0 := d[0].1]
  }

  lemma {:induction false} AsMapGet(d: Dict<string>, name: string)
    ensures name in AsMap(d) <==> Get(d, name).Some?
    ensures name in AsMap(d) ==> AsMap(d)[name] == Get(d, name).value
  {
    if d != [] {
      AsMapGet(d[1..], name);
    }
  }

  const WEBHOOK := "WEBHOOK_"
  const INBOUND := "INBOUND_"
  const PYRUNNER := "PYRUNNER_"

  function InboundVars(m: Option<Inbound>): Env {
    match m
    case None => map[]
    case Some(i) =>
      map[INBOUND + "CHANNEL" := i.channel, INBOUND + "TEXT" := i.text,
          INBOUND + "REPLY_REF" := i.replyRef, INBOUND + "SENDER" := i.sender]
  }

  function Given(key: string, value: Option<string>): Env {
    if value.Some? then map[key := value.value] else map[]
  }

  function WebhookVars(webhook: Option<Webhook>): Env {
    match webhook
    case None => map[]
    case Some(w) =>
      map[WEBHOOK + "METHOD" := w.requestMethod, WEBHOOK + "QUERY" := w.query,
          WEBHOOK + "CONTENT_TYPE" := w.contentType]
      + Given(WEBHOOK + "BODY", w.body) + Given(WEBHOOK + "BODY_JSON", w.bodyJson) + InboundVars(w.inbound)
  }

  /** Attribution of AI usage. */
  function UsageVars(run: Option<RunInfo>): Env {
    match run
    case None => map[]
    case Some(r) =>
      map[PYRUNNER + "RUN_ID" := r.id]
      + (if r.script.Some? then
           map[PYRUNNER + "SCRIPT_ID" := r.script.value.id, PYRUNNER + "SCRIPT_NAME" := r.script.value.name]
         else map[])
  }

  function RunVars(host: Host, run: Option<RunInfo>): Env {
    Given(PYRUNNER + "DB_PATH", host.dbPath) +
    match run
    case None => map[]
    case Some(r) =>
      map[PYRUNNER + "INTERNAL_URL" := host.internalUrl, PYRUNNER + "INTERNAL_TOKEN" := r.token]
      + Given(PYRUNNER + "WORKSPACE_ID", r.workspace)
      + (if r.script.Some? && r.script.value.owner != "" then map[PYRUNNER + "OWNER_PLUGIN" := r.script.value.owner]
         else map[])
  }

  const PYTHON_PATH := "PYTHONPATH"

  /** What a script's environment is put together from. */
  datatype Assembly = Assembly(
    host: Host,
    secrets: Dict<string>,
    webhook: Option<Webhook>,
    ai: Ai,
    run: Option<RunInfo>,
    libraryRoot: Option<string>)

  /** The same as variables, in the order in which they are laid over each other. */
  datatype Layers = Layers(
    host: Env,
    secrets: Dict<string>,
    webhook: Env,
    ai: Ai,
    usage: Env,
    run: Env,
    helpers: string,
    libraryRoot: Option<string>)

  function LayersOf(a: Assembly): Layers {
    Layers(a.host.env - a.host.denied, a.secrets, WebhookVars(a.webhook), a.ai, UsageVars(a.run),
           RunVars(a.host, a.run), a.host.helpers, a.libraryRoot)
  }

  function PathOf(helpers: string, libraryRoot: Option<string>, env: Env): string {
    Sandbox.PythonPath(helpers, libraryRoot, if PYTHON_PATH in env then env[PYTHON_PATH] else "")
  }

  function BeforePath(s: Layers): Env {
    var given := s.host + AsMap(s.secrets) + s.webhook;
    (if s.ai.vars == map[] then given else given - s.ai.conflicting + s.ai.vars + s.usage) + s.run
  }

  function Environment(s: Layers): Env {
    BeforePath(s)[PYTHON_PATH := PathOf(s.helpers, s.libraryRoot, BeforePath(s))]
  }

  // ----- Whose name a variable has -----

  /** The names that PyRun sets itself, whatever the run. */
  predicate OwnName(name: string) {
    name == PYTHON_PATH || WEBHOOK <= name || INBOUND <= name || PYRUNNER <= name
  }

  ghost predicate NamesKept(s: Layers) {
    && (forall name :: name in s.webhook ==> OwnName(name))
    && (forall name :: name in s.usage ==> OwnName(name))
    && (forall name :: name in s.run ==> OwnName(name))
  }

  lemma WebhookNames(webhook: Option<Webhook>, name: string)
    ensures name in WebhookVars(webhook) ==> OwnName(name)
  {}

  lemma UsageNames(run: Option<RunInfo>, name: string)
    ensures name in UsageVars(run) ==> OwnName(name)
  {}

  lemma RunNames(host: Host, run: Option<RunInfo>, name: string)
    ensures name in RunVars(host, run) ==> OwnName(name)
  {}

  /** PyRun keeps to its own names. */
  lemma OwnNames(a: Assembly)
    ensures NamesKept(LayersOf(a))
  {
    forall name
      ensures name in WebhookVars(a.webhook) ==> OwnName(name)
    {
      WebhookNames(a.webhook, name);
    }
    forall name
      ensures name in UsageVars(a.run) ==> OwnName(name)
    {
      UsageNames(a.run, name);
    }
    forall name
      ensures name in RunVars(a.host, a.run) ==> OwnName(name)
    {
      RunNames(a.host, a.run, name);
    }
  }

  // ----- The environment that is built -----

  function ScriptEnv(a: Assembly): Env {
    Environment(LayersOf(a))
  }

  function Lookup(env: Env, name: string): Option<string> {
    if name in env then Some(env[name]) else None
  }

  /** The AI provider sets this variable. */
  predicate ProviderSets(ai: Ai, name: string) {
    name in ai.vars
  }

  /** The AI provider, being active, removes this variable. */
  predicate ProviderStrips(ai: Ai, name: string) {
    ai.vars != map[] && name !in ai.vars && name in ai.conflicting
  }

  /** What a script finds under a name that is not PyRun's own: the provider's value, or none if the provider
      strips it, or else its secret, or else what the worker has unless it is denied. */
  function ForeignValue(host: Env, denied: set<string>, secrets: Dict<string>, ai: Ai, name: string): Option<string> {
    if ProviderSets(ai, name) then Some(ai.vars[name])
    else if ProviderStrips(ai, name) then None
    else if Get(secrets, name).Some? then Get(secrets, name)
    else if name in denied then None
    else Lookup(host, name)
  }

  lemma ForeignInLayers(s: Layers, host: Env, denied: set<string>, name: string)
    requires NamesKept(s) && !OwnName(name) && s.host == host - denied
    ensures Lookup(Environment(s), name) == ForeignValue(host, denied, s.secrets, s.ai, name)
  {
    AsMapGet(s.secrets, name);
  }

  // ----- Names of PyRun's own -----

  predicate StartsLike(name: string, initials: string) {
    |name| > |PYRUNNER| && PYRUNNER <= name && name[|PYRUNNER|] in initials
  }

  lemma UsageInitials(run: Option<RunInfo>, name: string)
    ensures name in UsageVars(run) ==> StartsLike(name, "RS")
  {}

  lemma RunInitials(host: Host, run: Option<RunInfo>, name: string)
    ensures name in RunVars(host, run) ==> StartsLike(name, "DIWO")
  {}

  lemma WebhookInitials(webhook: Option<Webhook>, name: string)
    ensures name in WebhookVars(webhook) ==> WEBHOOK <= name || INBOUND <= name
  {}

  /** No two parts of the assembly set the same variable, so their order does not matter. */
  lemma OwnVariablesDisjoint(a: Assembly, name: string)
    ensures name in WebhookVars(a.webhook) ==>
              name !in UsageVars(a.run) && name !in RunVars(a.host, a.run) && name != PYTHON_PATH
    ensures name in UsageVars(a.run) ==> name !in RunVars(a.host, a.run) && name != PYTHON_PATH
    ensures name in RunVars(a.host, a.run) ==> name != PYTHON_PATH
  {
    UsageInitials(a.run, name);
    RunInitials(a.host, a.run, name);
    WebhookInitials(a.webhook, name);
    assert WEBHOOK[0] == 'W' && INBOUND[0] == 'I' && PYRUNNER[0] == 'P' && PYTHON_PATH[0] == 'P';
    assert PYRUNNER[2] == 'R' && PYTHON_PATH[2] == 'T';
  }

  /** The variables that PyRun sets after the provider had its say. */
  predicate SetLast(s: Layers, name: string) {
    name == PYTHON_PATH || name in s.run || (s.ai.vars != map[] && name in s.usage)
  }

  predicate Touched(ai: Ai, name: string) {
    ProviderSets(ai, name) || ProviderStrips(ai, name)
  }

  ghost predicate Disjoint(s: Layers, name: string) {
    && (name in s.webhook ==> name !in s.usage && name !in s.run && name != PYTHON_PATH)
    && (name in s.usage ==> name !in s.run && name != PYTHON_PATH)
    && (name in s.run ==> name != PYTHON_PATH)
  }

  /** Everything that this run sets under the name has this value, and the provider does not strip it. */
  predicate OwnAgrees(s: Layers, name: string, v: string) {
    && (name == PYTHON_PATH ==> PathOf(s.helpers, s.libraryRoot, BeforePath(s)) == v)
    && (name in s.run ==> s.run[name] == v)
    && (s.ai.vars != map[] && name in s.usage ==> s.usage[name] == v)
    && (!SetLast(s, name) && ProviderSets(s.ai, name) ==> s.ai.vars[name] == v)
    && (!SetLast(s, name) ==> !ProviderStrips(s.ai, name))
    && (!Touched(s.ai, name) && name in s.webhook ==> s.webhook[name] == v)
  }

  lemma OwnNameHeldExactly(s: Layers, name: string, v: string)
    requires Disjoint(s, name) && Get(s.secrets, name) == Some(v)
    ensures Lookup(Environment(s), name) == Some(v) <==> OwnAgrees(s, name, v)
  {
    AsMapGet(s.secrets, name);
  }

  /** A secret whose name is one of PyRun's own reaches the script exactly if whatever this run sets under that
      name, through the request, the provider, the run or the path, is the secret's value, and the
      provider does not strip the name. */
  lemma OwnNamedSecretKeptExactly(a: Assembly, name: string, v: string)
    requires OwnName(name) && Get(a.secrets, name) == Some(v)
    ensures Lookup(ScriptEnv(a), name) == Some(v) <==> OwnAgrees(LayersOf(a), name, v)
  {
    OwnVariablesDisjoint(a, name);
    OwnNameHeldExactly(LayersOf(a), name, v);
  }

  lemma RunWins(s: Layers, name: string)
    requires name in s.run && name != PYTHON_PATH
    ensures Lookup(Environment(s), name) == Some(s.run[name])
  {}

  lemma PathIsOwn(host: Host, run: Option<RunInfo>)
    ensures PYTHON_PATH !in RunVars(host, run)
  {
    RunInitials(host, run, PYTHON_PATH);
    assert PYRUNNER[2] == 'R' && PYTHON_PATH[2] == 'T';
  }

  lemma HelpersFirst(helpers: string, libraryRoot: Option<string>, env: Env)
    ensures helpers <= PathOf(helpers, libraryRoot, env)
  {}

  /** The environment of a script. Under a name that is not PyRun's own it finds exactly the value above; so a
      secret that the provider leaves alone arrives unchanged, and a denied variable of the worker only if
      a secret or the provider sets it again. The run's own variables are the run's, whatever the secrets,
      the request or the provider say; and nothing precedes the helpers on the path. */
  method BuildScriptEnvironment(host: Host, secrets: Dict<string>, webhook: Option<Webhook>, ai: Ai,
                                run: Option<RunInfo>, libraryRoot: Option<string>)
    returns (env: Env)
    ensures env == ScriptEnv(Assembly(host, secrets, webhook, ai, run, libraryRoot))
    ensures forall name :: !OwnName(name) ==>
              Lookup(env, name) == ForeignValue(host.env, host.denied, secrets, ai, name)
    ensures forall name ::
              (!OwnName(name) && Get(secrets, name).Some? && !ProviderSets(ai, name) && !ProviderStrips(ai, name)) ==>
                Lookup(env, name) == Get(secrets, name)
    ensures forall name ::
              (!OwnName(name) && name in host.denied && Get(secrets, name).None? && !ProviderSets(ai, name)) ==>
                name !in env
    ensures forall name :: name in RunVars(host, run) ==> Lookup(env, name) == Some(RunVars(host, run)[name])
    ensures PYTHON_PATH in env && host.helpers <= env[PYTHON_PATH]
  {
    env := host.env - host.denied;
    env := env + AsMap(secrets);
    env := AddVariables(env, WebhookVars(webhook), ai, UsageVars(run), RunVars(host, run));
    env := env[PYTHON_PATH := PathOf(host.helpers, libraryRoot, env)];
    BuiltEnvironment(Assembly(host, secrets, webhook, ai, run, libraryRoot));
  }

  method AddVariables(given: Env, webhook: Env, ai: Ai, usage: Env, run: Env) returns (env: Env)
    ensures env == (if ai.vars == map[] then given + webhook
                    else given + webhook - ai.conflicting + ai.vars + usage) + run
  {
    env := given + webhook;
    if ai.vars != map[] {
      env := env - ai.conflicting;
      env := env + ai.vars;
      env := env + usage;
    }
    env := env + run;
  }

  /** What the contract of the assembly says, by names. */
  lemma BuiltEnvironment(a: Assembly)
    ensures forall name :: !OwnName(name) ==>
              Lookup(ScriptEnv(a), name) == ForeignValue(a.host.env, a.host.denied, a.secrets, a.ai, name)
    ensures forall name :: name in RunVars(a.host, a.run) ==>
              Lookup(ScriptEnv(a), name) == Some(RunVars(a.host, a.run)[name])
    ensures PYTHON_PATH in ScriptEnv(a) && a.host.helpers <= ScriptEnv(a)[PYTHON_PATH]
  {
    var s := LayersOf(a);
    OwnNames(a);
    PathIsOwn(a.host, a.run);
    HelpersFirst(s.helpers, s.libraryRoot, BeforePath(s));
    forall name | !OwnName(name)
      ensures Lookup(ScriptEnv(a), name) == ForeignValue(a.host.env, a.host.denied, a.secrets, a.ai, name)
    {
      ForeignInLayers(s, a.host.env, a.host.denied, name);
    }
    forall name | name in RunVars(a.host, a.run)
      ensures Lookup(ScriptEnv(a), name) == Some(RunVars(a.host, a.run)[name])
    {
      RunWins(s, name);
    }
  }

  // ----- Which value goes under which name -----

  function RunVariable(host: Host, run: Option<RunInfo>, name: string): Option<string> {
    if name == "PYRUNNER_DB_PATH" then host.dbPath
    else if run.None? then None
    else if name == "PYRUNNER_INTERNAL_URL" then Some(host.internalUrl)
    else if name == "PYRUNNER_INTERNAL_TOKEN" then Some(run.value.token)
    else if name == "PYRUNNER_WORKSPACE_ID" then run.value.workspace
    else if name == "PYRUNNER_OWNER_PLUGIN" && run.value.script.Some? && run.value.script.value.owner != "" then
      Some(run.value.script.value.owner)
    else None
  }

  function UsageVariable(run: Option<RunInfo>, name: string): Option<string> {
    if run.None? then None
    else if name == "PYRUNNER_RUN_ID" then Some(run.value.id)
    else if name == "PYRUNNER_SCRIPT_ID" && run.value.script.Some? then Some(run.value.script.value.id)
    else if name == "PYRUNNER_SCRIPT_NAME" && run.value.script.Some? then Some(run.value.script.value.name)
    else None
  }

  function WebhookVariable(webhook: Option<Webhook>, name: string): Option<string> {
    if webhook.None? then None
    else if name == "WEBHOOK_METHOD" then Some(webhook.value.requestMethod)
    else if name == "WEBHOOK_QUERY" then Some(webhook.value.query)
    else if name == "WEBHOOK_CONTENT_TYPE" then Some(webhook.value.contentType)
    else if name == "WEBHOOK_BODY" then webhook.value.body
    else if name == "WEBHOOK_BODY_JSON" then webhook.value.bodyJson
    else if webhook.value.inbound.None? then None
    else InboundVariable(webhook.value.inbound.value, name)
  }

  lemma RunNamesSpelled()
    ensures PYRUNNER + "DB_PATH" == "PYRUNNER_DB_PATH"
    ensures PYRUNNER + "INTERNAL_URL" == "PYRUNNER_INTERNAL_URL"
    ensures PYRUNNER + "INTERNAL_TOKEN" == "PYRUNNER_INTERNAL_TOKEN"
    ensures PYRUNNER + "WORKSPACE_ID" == "PYRUNNER_WORKSPACE_ID"
    ensures PYRUNNER + "OWNER_PLUGIN" == "PYRUNNER_OWNER_PLUGIN"
  {}

  lemma RunVariables(host: Host, run: Option<RunInfo>, name: string)
    ensures Lookup(RunVars(host, run), name) == RunVariable(host, run, name)
  {
    RunNamesSpelled();
  }

  lemma UsageVariables(run: Option<RunInfo>, name: string)
    ensures Lookup(UsageVars(run), name) == UsageVariable(run, name)
  {
    assert PYRUNNER + "RUN_ID" == "PYRUNNER_RUN_ID";
    assert PYRUNNER + "SCRIPT_ID" == "PYRUNNER_SCRIPT_ID";
    assert PYRUNNER + "SCRIPT_NAME" == "PYRUNNER_SCRIPT_NAME";
  }

  function InboundVariable(m: Inbound, name: string): Option<string> {
    if name == "INBOUND_CHANNEL" then Some(m.channel)
    else if name == "INBOUND_TEXT" then Some(m.text)
    else if name == "INBOUND_REPLY_REF" then Some(m.replyRef)
    else if name == "INBOUND_SENDER" then Some(m.sender)
    else None
  }

  lemma InboundVariables(m: Inbound, name: string)
    ensures Lookup(InboundVars(Some(m)), name) == InboundVariable(m, name)
  {
    assert INBOUND + "CHANNEL" == "INBOUND_CHANNEL";
    assert INBOUND + "TEXT" == "INBOUND_TEXT";
    assert INBOUND + "REPLY_REF" == "INBOUND_REPLY_REF";
    assert INBOUND + "SENDER" == "INBOUND_SENDER";
  }

  lemma WebhookNamesSpelled()
    ensures WEBHOOK + "METHOD" == "WEBHOOK_METHOD"
    ensures WEBHOOK + "QUERY" == "WEBHOOK_QUERY"
    ensures WEBHOOK + "CONTENT_TYPE" == "WEBHOOK_CONTENT_TYPE"
    ensures WEBHOOK + "BODY" == "WEBHOOK_BODY"
    ensures WEBHOOK + "BODY_JSON" == "WEBHOOK_BODY_JSON"
  {}

  lemma InboundIsNotWebhook(m: Inbound, name: string)
    ensures InboundVariable(m, name).Some? ==> INBOUND <= name && name[0] == 'I'
  {}

  lemma WebhookVariables(webhook: Option<Webhook>, name: string)
    ensures Lookup(WebhookVars(webhook), name) == WebhookVariable(webhook, name)
  {
    WebhookNamesSpelled();
    if webhook.Some? && webhook.value.inbound.Some? {
      InboundVariables(webhook.value.inbound.value, name);
      InboundIsNotWebhook(webhook.value.inbound.value, name);
    }
  }

  /** What the script finds under PyRun's own names: what belongs to the run, to the attribution of AI usage if
      a provider is active, and to the request unless the provider has a say about that name. */
  lemma OwnVariablesArrive(a: Assembly, name: string)
    ensures RunVariable(a.host, a.run, name).Some? ==>
              Lookup(ScriptEnv(a), name) == RunVariable(a.host, a.run, name)
    ensures UsageVariable(a.run, name).Some? && a.ai.vars != map[] ==>
              Lookup(ScriptEnv(a), name) == UsageVariable(a.run, name)
    ensures WebhookVariable(a.webhook, name).Some? && !Touched(a.ai, name) ==>
              Lookup(ScriptEnv(a), name) == WebhookVariable(a.webhook, name)
  {
    RunVariables(a.host, a.run, name);
    UsageVariables(a.run, name);
    WebhookVariables(a.webhook, name);
    OwnVariablesDisjoint(a, name);
    LayerArrives(LayersOf(a), name);
  }

  lemma LayerArrives(s: Layers, name: string)
    requires Disjoint(s, name)
    ensures name in s.run ==> Lookup(Environment(s), name) == Some(s.run[name])
    ensures name in s.usage && s.ai.vars != map[] ==> Lookup(Environment(s), name) == Some(s.usage[name])
    ensures name in s.webhook && !Touched(s.ai, name) ==> Lookup(Environment(s), name) == Some(s.webhook[name])
  {}

  /** The path of the script: the helpers, the run's libraries, and then what the provider, the secrets or the
      worker's environment have under that name, in this order of precedence. */
  lemma PathIsAssembled(a: Assembly)
    ensures var inherited := ForeignValue(a.host.env, a.host.denied, a.secrets, a.ai, "PYTHONPATH");
            Lookup(ScriptEnv(a), "PYTHONPATH") ==
              Some(Sandbox.PythonPath(a.host.helpers, a.libraryRoot, if inherited.Some? then inherited.value else ""))
  {
    var s := LayersOf(a);
    OwnVariablesDisjoint(a, PYTHON_PATH);
    WebhookInitials(a.webhook, PYTHON_PATH);
    AsMapGet(s.secrets, PYTHON_PATH);
    assert WEBHOOK[0] == 'W' && INBOUND[0] == 'I' && PYTHON_PATH[0] == 'P';
    assert Lookup(BeforePath(s), PYTHON_PATH) ==
           ForeignValue(a.host.env, a.host.denied, a.secrets, a.ai, PYTHON_PATH);
  }

  /** A secret reaches the script unchanged unless its name is one of PyRun's own or one that the AI provider
      sets or strips. */
  lemma SecretKept(a: Assembly, name: string)
    requires Get(a.secrets, name).Some? && !OwnName(name)
    requires !ProviderSets(a.ai, name) && !ProviderStrips(a.ai, name)
    ensures Lookup(ScriptEnv(a), name) == Get(a.secrets, name)
  {
    BuiltEnvironment(a);
  }

  // ----- Routing of the AI provider -----

  datatype Provider =
    | Anthropic(credential: string, apiKey: bool)
    | ThirdParty(credential: string, baseUrl: string, extra: Env)

  const OAUTH := "CLAUDE_CODE_OAUTH_TOKEN"
  const API_KEY := "ANTHROPIC_API_KEY"
  const AUTH_TOKEN := "ANTHROPIC_AUTH_TOKEN"
  const BASE_URL := "ANTHROPIC_BASE_URL"

  const ROUTING_KEYS: seq<string> := [API_KEY, OAUTH, BASE_URL, AUTH_TOKEN]

  /** `get_script_env` for an active provider; the extra variables of a provider never override. */
  function ProviderVars(p: Provider, configDir: string, model: string, name: string): Env {
    var config := map["CLAUDE_CONFIG_DIR" := configDir];
    (match p
     case Anthropic(c, apiKey) => config + if apiKey then map[API_KEY := c] else map[OAUTH := c]
     case ThirdParty(c, url, extra) => extra + config + map[BASE_URL := url, AUTH_TOKEN := c, API_KEY := ""])
    + (if model != "" then map["ANTHROPIC_MODEL" := model] else map[])
    + map[PYRUNNER + "AI_PROVIDER" := name]
  }

  /** `conflicting_env_keys` */
  function Conflicting(p: Provider): set<string> {
    match p
    case Anthropic(_, apiKey) => if apiKey then {OAUTH, BASE_URL, AUTH_TOKEN} else {API_KEY, BASE_URL, AUTH_TOKEN}
    case ThirdParty(_, _, _) => {OAUTH}
  }

  /** The variable that carries a provider's credential. */
  function Carrier(p: Provider): string {
    match p
    case Anthropic(_, apiKey) => if apiKey then "ANTHROPIC_API_KEY" else "CLAUDE_CODE_OAUTH_TOKEN"
    case ThirdParty(_, _, _) => "ANTHROPIC_AUTH_TOKEN"
  }

  /** What an active provider sets, by names: its credential under the variable that carries it; for a third
      party also its address, an empty API key, and what its preset adds, which overrides nothing. */
  function ProviderVariable(p: Provider, configDir: string, model: string, provider: string, name: string)
    : Option<string>
  {
    if name == "PYRUNNER_AI_PROVIDER" then Some(provider)
    else if name == "ANTHROPIC_MODEL" && model != "" then Some(model)
    else if name == "CLAUDE_CONFIG_DIR" then Some(configDir)
    else if name == Carrier(p) then Some(p.credential)
    else if p.Anthropic? then None
    else if name == "ANTHROPIC_BASE_URL" then Some(p.baseUrl)
    else if name == "ANTHROPIC_API_KEY" then Some("")
    else Lookup(p.extra, name)
  }

  /** No two variables of a provider have the same name. */
  lemma AnthropicNamesDiffer(p: Provider)
    requires p.Anthropic?
    ensures Carrier(p) != "PYRUNNER_AI_PROVIDER" && Carrier(p) != "ANTHROPIC_MODEL" && Carrier(p) != "CLAUDE_CONFIG_DIR"
  {
    assert Carrier(p)[10] != "ANTHROPIC_MODEL"[10] && Carrier(p)[0] != 'P';
    assert Carrier(p)[9] != "CLAUDE_CONFIG_DIR"[9];
  }

  lemma ThirdPartyNamesDiffer()
    ensures "ANTHROPIC_MODEL" !in {"ANTHROPIC_AUTH_TOKEN", "ANTHROPIC_BASE_URL", "ANTHROPIC_API_KEY"}
    ensures "PYRUNNER_AI_PROVIDER" !in {"ANTHROPIC_AUTH_TOKEN", "ANTHROPIC_BASE_URL", "ANTHROPIC_API_KEY"}
    ensures "CLAUDE_CONFIG_DIR" !in {"ANTHROPIC_AUTH_TOKEN", "ANTHROPIC_BASE_URL", "ANTHROPIC_API_KEY"}
    ensures "ANTHROPIC_AUTH_TOKEN" !in {"ANTHROPIC_BASE_URL", "ANTHROPIC_API_KEY"}
  {
    assert "ANTHROPIC_AUTH_TOKEN"[0] == 'A' && "ANTHROPIC_BASE_URL"[0] == 'A' && "ANTHROPIC_API_KEY"[0] == 'A';
    assert "ANTHROPIC_AUTH_TOKEN"[11] == 'U' && "ANTHROPIC_API_KEY"[11] == 'P' && "ANTHROPIC_BASE_URL"[11] == 'A';
    assert "ANTHROPIC_MODEL"[10] == 'M' && "ANTHROPIC_BASE_URL"[10] == 'B' && "ANTHROPIC_API_KEY"[10] == 'A';
  }

  lemma AnthropicVariables(p: Provider, configDir: string, model: string, provider: string, name: string)
    requires p.Anthropic?
    ensures Lookup(ProviderVars(p, configDir, model, provider), name) ==
            ProviderVariable(p, configDir, model, provider, name)
  {
    AnthropicNamesDiffer(p);
    assert PYRUNNER + "AI_PROVIDER" == "PYRUNNER_AI_PROVIDER";
  }

  lemma ThirdPartyVariables(p: Provider, configDir: string, model: string, provider: string, name: string)
    requires p.ThirdParty?
    ensures Lookup(ProviderVars(p, configDir, model, provider), name) ==
            ProviderVariable(p, configDir, model, provider, name)
  {
    ThirdPartyNamesDiffer();
    assert PYRUNNER + "AI_PROVIDER" == "PYRUNNER_AI_PROVIDER";
  }

  lemma ProviderVariables(p: Provider, configDir: string, model: string, provider: string, name: string)
    ensures Lookup(ProviderVars(p, configDir, model, provider), name) ==
            ProviderVariable(p, configDir, model, provider, name)
  {
    if p.Anthropic? {
      AnthropicVariables(p, configDir, model, provider, name);
    } else {
      ThirdPartyVariables(p, configDir, model, provider, name);
    }
  }

  /** What an active provider strips: the routing variables it does not set itself. */
  lemma ConflictingExactly(p: Provider, name: string)
    ensures name in Conflicting(p) <==>
            && (name == "ANTHROPIC_API_KEY" || name == "CLAUDE_CODE_OAUTH_TOKEN" || name == "ANTHROPIC_BASE_URL"
                || name == "ANTHROPIC_AUTH_TOKEN")
            && name != Carrier(p)
            && (p.ThirdParty? ==> name != "ANTHROPIC_BASE_URL" && name != "ANTHROPIC_API_KEY")
  {
    ThirdPartyNamesDiffer();
    assert "CLAUDE_CODE_OAUTH_TOKEN"[0] == 'C';
  }

  lemma RoutingKeysAreForeign(key: string)
    requires key in ROUTING_KEYS
    ensures !OwnName(key)
  {
    assert API_KEY[0] == 'A' && OAUTH[0] == 'C' && BASE_URL[0] == 'A' && AUTH_TOKEN[0] == 'A';
    assert PYTHON_PATH[0] == 'P' && WEBHOOK[0] == 'W' && INBOUND[0] == 'I' && PYRUNNER[0] == 'P';
  }

  lemma RoutingCovered(p: Provider, configDir: string, model: string, name: string, key: string)
    requires key in ROUTING_KEYS
    ensures key in ProviderVars(p, configDir, model, name) || key in Conflicting(p)
  {}

  /** With a provider active, every routing variable the script sees is the provider's own: neither the host
      nor a secret can set or keep one of them. With AI off nothing is stripped, and the host's own are
      passed on unless denied. */
  lemma RoutingIsProviders(a: Assembly, p: Provider, configDir: string, model: string, name: string, key: string)
    requires key in ROUTING_KEYS
    requires a.ai == Ai(ProviderVars(p, configDir, model, name), Conflicting(p)) || a.ai.vars == map[]
    ensures Lookup(ScriptEnv(a), key) ==
            if a.ai.vars != map[] then Lookup(a.ai.vars, key)
            else if Get(a.secrets, key).Some? then Get(a.secrets, key)
            else if key in a.host.denied then None
            else Lookup(a.host.env, key)
  {
    RoutingKeysAreForeign(key);
    RoutingCovered(p, configDir, model, name, key);
    BuiltEnvironment(a);
  }
}
