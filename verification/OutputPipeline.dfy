/** From the secrets table to the script's environment and to the stored output of a run. */
module OutputPipeline {
  import opened Wrappers
  import opened Lifecycle
  import opened Text
  import opened Utf8
  import opened Secrets
  import opened ScriptEnvironment
  import opened Masking
  import opened Truncation

  /** The AI credential variables that are masked besides the secrets. */
  const CREDENTIAL_KEYS: seq<string> := [OAUTH, API_KEY, AUTH_TOKEN]

  function Credential(aiEnv: Env, key: string): Option<string> {
    if key in aiEnv && aiEnv[key] != "" then Some(aiEnv[key]) else None
  }

  function WithCredentials(secrets: Dict<string>, aiEnv: Env, keys: seq<string>): Dict<string> {
    if keys == [] then secrets else
    var before := WithCredentials(secrets, aiEnv, keys[..|keys| - 1]);
    var key := keys[|keys| - 1];
    if Credential(aiEnv, key).Some? then Put(before, key, Credential(aiEnv, key).value) else before
  }

  /** The dict that masks the output of a run: its secrets, and over them the AI credentials. */
  function MaskingDict(secrets: Dict<string>, aiEnv: Env): Dict<string> {
    WithCredentials(secrets, aiEnv, CREDENTIAL_KEYS)
  }

  /** A variable that may carry the credential of a provider. */
  predicate CarriesCredential(name: string) {
    name == "CLAUDE_CODE_OAUTH_TOKEN" || name == "ANTHROPIC_API_KEY" || name == "ANTHROPIC_AUTH_TOKEN"
  }

  /** The result masks each of these variables by its own value, if it is set, and everything else as the secrets
      do. */
  method AddCredentials(secrets: Dict<string>, aiEnv: Env) returns (all: Dict<string>)
    ensures all == MaskingDict(secrets, aiEnv)
    ensures forall name :: Get(all, name) ==
              if CarriesCredential(name) && name in aiEnv && aiEnv[name] != "" then Some(aiEnv[name])
              else Get(secrets, name)
  {
    all := secrets;
    for i := 0 to |CREDENTIAL_KEYS|
      invariant all == WithCredentials(secrets, aiEnv, CREDENTIAL_KEYS[..i])
    {
      assert CREDENTIAL_KEYS[..i + 1][..i] == CREDENTIAL_KEYS[..i];
      var key := CREDENTIAL_KEYS[i];
      if key in aiEnv && aiEnv[key] != "" {
        all := Put(all, key, aiEnv[key]);
      }
    }
    assert CREDENTIAL_KEYS[..|CREDENTIAL_KEYS|] == CREDENTIAL_KEYS;
    forall name
      ensures Get(all, name) ==
              if CarriesCredential(name) && name in aiEnv && aiEnv[name] != "" then Some(aiEnv[name])
              else Get(secrets, name)
    {
      MaskingDictGet(secrets, aiEnv, name);
    }
  }

  lemma MaskingDictGet(secrets: Dict<string>, aiEnv: Env, name: string)
    ensures Get(MaskingDict(secrets, aiEnv), name) ==
            if CarriesCredential(name) && name in aiEnv && aiEnv[name] != "" then Some(aiEnv[name])
            else Get(secrets, name)
  {
    WithCredentialsGet(secrets, aiEnv, CREDENTIAL_KEYS, name);
  }

  /** What is stored of a run's output: masked, then truncated. */
  function Stored(raw: string, secrets: Dict<string>): string {
    TruncateOutput(MaskAll(raw, secrets), MAX_OUTPUT_BYTES)
  }

  lemma {:induction false} WithCredentialsGet(secrets: Dict<string>, aiEnv: Env, keys: seq<string>,
                                              name: string)
    ensures Get(WithCredentials(secrets, aiEnv, keys), name) ==
            if name in keys && Credential(aiEnv, name).Some? then Credential(aiEnv, name) else Get(secrets, name)
    decreases |keys|
  {
    if keys != [] {
      var front, key := keys[..|keys| - 1], keys[|keys| - 1];
      WithCredentialsGet(secrets, aiEnv, front, name);
      assert name in keys <==> name in front || name == key;
      if Credential(aiEnv, key).Some? {
        GetPut(WithCredentials(secrets, aiEnv, front), key, Credential(aiEnv, key).value, name);
      }
    }
  }

  lemma {:induction false} GetIndex(d: Dict<string>, name: string) returns (j: nat)
    requires Get(d, name).Some?
    ensures j < |d| && d[j] == (name, Get(d, name).value)
    decreases |d|
  {
    if d[0].0 == name {
      j := 0;
    } else {
      j := GetIndex(d[1..], name);
      j := j + 1;
    }
  }

  lemma {:induction false} CredentialMembers(secrets: Dict<string>, aiEnv: Env, keys: seq<string>,
                                             item: (string, string))
    requires item in WithCredentials(secrets, aiEnv, keys)
    ensures item in secrets || item.0 in keys
    decreases |keys|
  {
    if keys != [] {
      var front, key := keys[..|keys| - 1], keys[|keys| - 1];
      var before := WithCredentials(secrets, aiEnv, front);
      if Credential(aiEnv, key).Some? {
        PutMembers(before, key, Credential(aiEnv, key).value, item);
      }
      if item in before {
        CredentialMembers(secrets, aiEnv, front, item);
      }
    }
  }

  lemma CredentialKeysAreValid()
    ensures forall key :: key in CREDENTIAL_KEYS ==> ValidKey(key)
  {
    assert ValidKey(OAUTH);
    assert ValidKey(API_KEY);
    assert ValidKey(AUTH_TOKEN);
  }

  lemma AllKeysValid(secrets: Dict<string>, aiEnv: Env)
    requires ValidKeys(secrets)
    ensures ValidKeys(MaskingDict(secrets, aiEnv))
  {
    CredentialKeysAreValid();
    var all := MaskingDict(secrets, aiEnv);
    forall j | 0 <= j < |all|
      ensures ValidKey(all[j].0)
    {
      CredentialMembers(secrets, aiEnv, CREDENTIAL_KEYS, all[j]);
    }
  }

  // ----- Stored output -----

  /** What is stored, by the numbers: the masked text if it has no more than a million bytes, or else as many whole
      characters of it as leave room for the notice; and the output as it was if it fits and there is
      nothing to mask. */
  lemma StoredExactly(raw: string, all: Dict<string>)
    ensures |Encode(Stored(raw, all))| <= 1_000_002
    ensures |Encode(MaskAll(raw, all))| <= 1_000_000 ==> Stored(raw, all) == MaskAll(raw, all)
    ensures |Encode(raw)| <= 1_000_000 && NothingToMask(raw, all) ==> Stored(raw, all) == raw
    ensures |Encode(MaskAll(raw, all))| > 1_000_000 ==>
              var masked := MaskAll(raw, all);
              exists j ::
                && 0 <= j < |masked|
                && |Encode(masked[..j])| <= 999_956 < |Encode(masked[..j])| + |EncodeChar(masked[j])|
                && Stored(raw, all) ==
                   masked[..j] + (if |Encode(masked[..j])| == 999_956 then "" else [REPLACEMENT]) + NOTICE
  {
    NoticeIsPlain();
    TruncateBound(MaskAll(raw, all), MAX_OUTPUT_BYTES, NOTICE);
    TruncateCorrect(MaskAll(raw, all), MAX_OUTPUT_BYTES, NOTICE);
    if NothingToMask(raw, all) {
      MaskingIdentity(raw, all);
    }
  }

  /** The note added to the error output of a run that timed out, after masking and truncation; `alone` is the
      note that stands for an empty one. */
  function WithTimeoutNote(stored: string, alone: string): string {
    if stored == "" then alone else stored + WAIT_TIMEOUT_NOTE
  }

  /** It is what the executor stores as the error output of a script that ran out of time. */
  lemma TimeoutNoteIsStored(k: Worker, out: string, err: string)
    ensures Reported(k, TimedOut(out, err)).copy.stderr ==
            WithTimeoutNote(err, "[TIMEOUT: Script exceeded its timeout]")
    ensures err != "" ==>
              Reported(k, TimedOut(out, err)).copy.stderr ==
              err + "\n\n" + "[TIMEOUT: Script exceeded maximum execution time]"
  {
    assert WAIT_TIMEOUT_NOTE == "\n\n" + "[TIMEOUT: Script exceeded maximum execution time]";
    assert err + ("\n\n" + "[TIMEOUT: Script exceeded maximum execution time]") ==
           err + "\n\n" + "[TIMEOUT: Script exceeded maximum execution time]";
  }

  /** A value that no text PyRun adds to the output can help to form. */
  ghost predicate UnlikeNotes(v: string, alone: string) {
    UnlikeNotice(v, NOTICE) && !Occurs(v, WAIT_TIMEOUT_NOTE) && !Occurs(v, alone)
  }

  /** No entry of the dict that masks appears in stored output, with or without the note of a timeout, if its
      own mask cannot build it again, no later mask can meet it, and it can be told from the notice and
      the notes. */
  lemma StoredOutputHidesEntry(raw: string, all: Dict<string>, j: nat, alone: string)
    requires j < |all| && Protected(all, j) && UnlikeNotes(all[j].1, alone)
    ensures !Occurs(all[j].1, Stored(raw, all))
    ensures !Occurs(all[j].1, WithTimeoutNote(Stored(raw, all), alone))
  {
    MaskingHides(raw, all, j);
    NoticeIsPlain();
    TruncationRevealsNothing(MaskAll(raw, all), MAX_OUTPUT_BYTES, all[j].1, NOTICE);
    assert WAIT_TIMEOUT_NOTE[0] == "\n\n"[0];
    NoStraddle(all[j].1, Stored(raw, all), WAIT_TIMEOUT_NOTE);
  }

  /** For every run that is not stopped by its resolution, even one whose resolution a failing fetch has cut
      short in silence, and whatever its secrets are called: no secret or credential it was given appears in
      its stored output, if it has no bracket, for each mask a character that the mask does not hold, and
      can be told from the notice and the notes. */
  lemma StoredOutputHidesInjectedValues(configured: bool, run: Option<Run>, table: seq<Secret>, aiEnv: Env,
                                        raw: string, j: nat, alone: string)
    requires Resolution(configured, run, table).Ok?
    requires var all := MaskingDict(Resolution(configured, run, table).value, aiEnv);
             j < |all| && ToldApart(all[j].1, all) && UnlikeNotes(all[j].1, alone)
    ensures var all := MaskingDict(Resolution(configured, run, table).value, aiEnv);
            && !Occurs(all[j].1, Stored(raw, all))
            && !Occurs(all[j].1, WithTimeoutNote(Stored(raw, all), alone))
  {
    var all := MaskingDict(Resolution(configured, run, table).value, aiEnv);
    ToldApartIsProtected(all, j);
    StoredOutputHidesEntry(raw, all, j, alone);
  }

  /** Where all secrets of the table were entered through the form, which checks their keys, one character
      foreign to every possible mask is enough. */
  lemma FormKeysTellApart(configured: bool, run: Option<Run>, table: seq<Secret>, aiEnv: Env, v: string)
    requires Resolution(configured, run, table).Ok? && forall s :: s in table ==> ValidKey(s.key)
    requires Distinctive(v)
    ensures ToldApart(v, MaskingDict(Resolution(configured, run, table).value, aiEnv))
  {
    var secrets := Resolution(configured, run, table).value;
    forall i | 0 <= i < |secrets|
      ensures ValidKey(secrets[i].0)
    {
      EveryEntryEntitled(configured, run, table, secrets[i]);
    }
    AllKeysValid(secrets, aiEnv);
    DistinctiveIsToldApart(v, MaskingDict(secrets, aiEnv));
  }

  // ----- What masks and what was injected -----

  /** The environment holds the value of a secret under the secret's own name. */
  predicate HoldsSecret(a: Assembly, name: string) {
    name in ScriptEnv(a) && Get(a.secrets, name) == Some(ScriptEnv(a)[name])
  }

  /** The environment holds an AI credential under its own name. */
  predicate HoldsCredential(a: Assembly, name: string) {
    && CarriesCredential(name) && name in ScriptEnv(a)
    && Credential(a.ai.vars, name) == Some(ScriptEnv(a)[name])
  }

  lemma CredentialsAreForeign(name: string)
    requires CarriesCredential(name)
    ensures !OwnName(name)
  {
    RoutingKeysAreForeign(name);
  }

  /** A credential that is set always reaches the script, whatever secret has its name. */
  lemma CredentialReaches(a: Assembly, name: string)
    requires CarriesCredential(name) && Credential(a.ai.vars, name).Some?
    ensures HoldsCredential(a, name)
  {
    CredentialsAreForeign(name);
    BuiltEnvironment(a);
    assert Lookup(ScriptEnv(a), name) == Some(a.ai.vars[name]);
  }

  /** Every secret and every credential that the environment holds under its own name is in the dict that
      masks, when the two readings of the AI settings give the same credentials. */
  lemma InjectedIsMasked(a: Assembly, aiEnv: Env, name: string)
    requires HoldsSecret(a, name) || HoldsCredential(a, name)
    requires forall key :: CarriesCredential(key) ==> Credential(aiEnv, key) == Credential(a.ai.vars, key)
    ensures Get(MaskingDict(a.secrets, aiEnv), name) == Some(ScriptEnv(a)[name])
  {
    MaskingDictGet(a.secrets, aiEnv, name);
    if CarriesCredential(name) && Credential(a.ai.vars, name).Some? {
      CredentialReaches(a, name);
    }
  }

  /** Conversely, when a value that masks is what the script has under that name. Under a name of the
      provider's: if it is the provider's value. Under one the provider strips: never. Under one of PyRun's
      own: if everything that this run sets under it has this very value. Under any other: always. */
  lemma MaskedIsInjectedExactly(a: Assembly, name: string, v: string)
    requires Get(MaskingDict(a.secrets, a.ai.vars), name) == Some(v)
    ensures Lookup(ScriptEnv(a), name) == Some(v) <==>
            if OwnName(name) then OwnAgrees(LayersOf(a), name, v)
            else if ProviderSets(a.ai, name) then a.ai.vars[name] == v
            else !ProviderStrips(a.ai, name)
  {
    MaskingDictGet(a.secrets, a.ai.vars, name);
    if CarriesCredential(name) {
      CredentialsAreForeign(name);
    }
    if OwnName(name) {
      OwnNamedSecretKeptExactly(a, name, v);
    } else {
      BuiltEnvironment(a);
      assert Lookup(ScriptEnv(a), name) == ForeignValue(a.host.env, a.host.denied, a.secrets, a.ai, name);
    }
  }

  /** A secret named like the API key, under a provider that uses an OAuth token, masks output although the
      script never gets it. */
  lemma MaskedButNotInjected(a: Assembly, credential: string, configDir: string, model: string, provider: string,
                             v: string)
    requires Get(a.secrets, API_KEY) == Some(v)
    requires var p := Anthropic(credential, false);
             a.ai == Ai(ProviderVars(p, configDir, model, provider), Conflicting(p))
    ensures API_KEY !in ScriptEnv(a)
    ensures Get(MaskingDict(a.secrets, a.ai.vars), API_KEY) == Some(v)
  {
    OauthHasNoApiKey(credential, configDir, model, provider);
    RoutingIsProviders(a, Anthropic(credential, false), configDir, model, provider, API_KEY);
    MaskingDictGet(a.secrets, a.ai.vars, API_KEY);
  }

  lemma OauthHasNoApiKey(credential: string, configDir: string, model: string, provider: string)
    ensures API_KEY !in ProviderVars(Anthropic(credential, false), configDir, model, provider)
    ensures ProviderVars(Anthropic(credential, false), configDir, model, provider) != map[]
  {
    assert OAUTH in ProviderVars(Anthropic(credential, false), configDir, model, provider);
    assert API_KEY[10] == 'A' && "ANTHROPIC_MODEL"[10] == 'M';
    assert API_KEY[0] == 'A' && OAUTH[0] == 'C' && "CLAUDE_CONFIG_DIR"[0] == 'C' && PYRUNNER[0] == 'P';
  }

  /** The AI settings are read once for the environment and once more for the masks. A credential that the
      script has is masked under its name exactly when the second reading gives it again, or gives none
      and a secret of that name has the same value. */
  lemma CredentialMaskedExactly(a: Assembly, aiEnv: Env, name: string)
    requires HoldsCredential(a, name)
    ensures var credential := Credential(a.ai.vars, name);
            Get(MaskingDict(a.secrets, aiEnv), name) == credential <==>
              || Credential(aiEnv, name) == credential
              || (Credential(aiEnv, name).None? && Get(a.secrets, name) == credential)
  {
    MaskingDictGet(a.secrets, aiEnv, name);
  }

  /** Every provider: a credential that is not empty reaches the script in the variable that carries it, whatever
      the secrets are called, and the dict that masks has it under that name. */
  lemma ProviderCredentialIsMasked(a: Assembly, p: Provider, configDir: string, model: string, provider: string)
    requires p.credential != "" && a.ai == Ai(ProviderVars(p, configDir, model, provider), Conflicting(p))
    ensures Lookup(ScriptEnv(a), Carrier(p)) == Some(p.credential)
    ensures Get(MaskingDict(a.secrets, ProviderVars(p, configDir, model, provider)), Carrier(p)) == Some(p.credential)
  {
    CarrierCarries(p, configDir, model, provider);
    CredentialReaches(a, Carrier(p));
    MaskingDictGet(a.secrets, a.ai.vars, Carrier(p));
  }

  lemma CarrierCarries(p: Provider, configDir: string, model: string, provider: string)
    ensures CarriesCredential(Carrier(p))
    ensures Lookup(ProviderVars(p, configDir, model, provider), Carrier(p)) == Some(p.credential)
  {
    ProviderVariables(p, configDir, model, provider, Carrier(p));
    if p.Anthropic? {
      AnthropicNamesDiffer(p);
    } else {
      ThirdPartyNamesDiffer();
    }
  }

  /** So a provider's credential that can be told apart never appears in what is stored of the output of a run. */
  lemma ProviderCredentialHidden(a: Assembly, p: Provider, configDir: string, model: string, provider: string,
                                 raw: string, alone: string)
    requires p.credential != "" && a.ai == Ai(ProviderVars(p, configDir, model, provider), Conflicting(p))
    requires ToldApart(p.credential, MaskingDict(a.secrets, ProviderVars(p, configDir, model, provider)))
    requires UnlikeNotes(p.credential, alone)
    ensures var all := MaskingDict(a.secrets, ProviderVars(p, configDir, model, provider));
            && !Occurs(p.credential, Stored(raw, all))
            && !Occurs(p.credential, WithTimeoutNote(Stored(raw, all), alone))
  {
    var all := MaskingDict(a.secrets, ProviderVars(p, configDir, model, provider));
    ProviderCredentialIsMasked(a, p, configDir, model, provider);
    var j := GetIndex(all, Carrier(p));
    ToldApartIsProtected(all, j);
    StoredOutputHidesEntry(raw, all, j, alone);
  }

  /** From the environment to the stored output: a secret or credential that the script can read under its
      own name does not appear in what is stored of the script's output. */
  lemma ScriptValuesHidden(a: Assembly, aiEnv: Env, name: string, raw: string, alone: string)
    requires HoldsSecret(a, name) || HoldsCredential(a, name)
    requires forall key :: CarriesCredential(key) ==> Credential(aiEnv, key) == Credential(a.ai.vars, key)
    requires var all := MaskingDict(a.secrets, aiEnv);
             ToldApart(ScriptEnv(a)[name], all) && UnlikeNotes(ScriptEnv(a)[name], alone)
    ensures var all := MaskingDict(a.secrets, aiEnv);
            && !Occurs(ScriptEnv(a)[name], Stored(raw, all))
            && !Occurs(ScriptEnv(a)[name], WithTimeoutNote(Stored(raw, all), alone))
  {
    var all := MaskingDict(a.secrets, aiEnv);
    InjectedIsMasked(a, aiEnv, name);
    var j := GetIndex(all, name);
    ToldApartIsProtected(all, j);
    StoredOutputHidesEntry(raw, all, j, alone);
  }
}
