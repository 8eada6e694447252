/**
 The two verdicts of the evidence token, in the fields and the literal texts they
 are about: when the producer issues, and when the consumer accepts.
 */
module EvidenceConditions {
  import opened Wrappers
  import Codec = EvidenceCodec
  import opened EvidenceToken

  // ----- texts -----

  /** What str(value or "") gives: nothing for what counts as false, a text as it is, and else its printed form. */
  lemma TextOfValues(lib: Library, s: string, n: int, items: seq<Json>)
    ensures Text(lib, Absent) == Text(lib, Null) == Text(lib, Bool(false)) == Text(lib, Int(0)) == Text(lib, List([])) == ""
    ensures Text(lib, Str(s)) == s && Text(lib, Bool(true)) == lib.text(Bool(true))
    ensures n != 0 ==> Text(lib, Int(n)) == lib.text(Int(n))
    ensures items != [] ==> Text(lib, List(items)) == lib.text(List(items))
  {
  }

  /** 0 to 9 and a to f. */
  predicate HexDigits(s: string) {
    forall c | c in s :: c in "0123456789abcdef"
  }

  lemma HexDigitsAre(s: string)
    ensures LowerHex(s) <==> HexDigits(s)
  {
    if HexDigits(s) {
      forall i | 0 <= i < |s| ensures '0' <= s[i] <= '9' || 'a' <= s[i] <= 'f' {
        assert s[i] in s;
      }
    }
  }

  /** A commit id has 40 or 64 hexadecimal digits. */
  predicate CommitId(s: string) {
    (|s| == 40 || |s| == 64) && HexDigits(s)
  }

  /** A fingerprint is its method, a colon and 64 hexadecimal digits. */
  predicate Fingerprint(s: string) {
    "sha256:" <= s && |s| == 7 + 64 && HexDigits(s[7..])
  }

  lemma FormatsAre(s: string)
    ensures IsSha(s) <==> CommitId(s)
    ensures IsFingerprint(s) <==> Fingerprint(s)
    ensures IsNonce(s) <==> 32 <= |s| <= 128 && HexDigits(s)
    ensures Digits(s) <==> |s| > 0 && forall c | c in s :: c in "0123456789"
    ensures ProtectedBranch(s) <==> s in ["main", "master", "production"]
  {
    HexDigitsAre(s);
    if |s| >= 7 {
      HexDigitsAre(s[7..]);
    }
    if forall c | c in s :: c in "0123456789" {
      forall i | 0 <= i < |s| ensures '0' <= s[i] <= '9' {
        assert s[i] in s;
      }
    }
  }

  // ----- what the producer asks of a manifest -----

  predicate GeneratorStands(lib: Library, m: Manifest) {
    && (m.schemaVersion == Int(2) || m.schemaVersion == Int(3))
    && m.evidenceType == Str("provider-verified-isolated-preview") && m.generatedBy.Some?
    && var g := m.generatedBy.value;
       && g.kind == Str("provider-api-verifier") && g.workflowRunId.Int? && g.workflowRunId.number >= 1
       && g.sources.List? && |g.sources.items| == 3
       && Str("render-api") in g.sources.items && Str("supabase-management-api") in g.sources.items
       && Str("vercel-api") in g.sources.items
       && g.workflowPath == Str(".github/workflows/verify-preview-providers.yml")
       && g.githubEnvironment == Str("preview-qa") && g.eventName == Str("workflow_dispatch")
       && |Text(lib, g.actorId)| > 0 && (forall c | c in Text(lib, g.actorId) :: c in "0123456789")
       && '/' in Text(lib, g.repository)
       && Text(lib, g.gitBranch) !in ["", "main", "master", "production"]
  }

  /** Three sources that hold these three texts hold nothing else. */
  lemma SourcesAreThree(items: seq<Json>)
    requires |items| == 3
    requires Str("render-api") in items && Str("supabase-management-api") in items && Str("vercel-api") in items
    ensures forall i | 0 <= i < 3 :: items[i].Str?
  {
    assert Str(RENDER_API) != Str(SUPABASE_API) && Str(SUPABASE_API) != Str(VERCEL_API) && Str(RENDER_API) != Str(VERCEL_API) by {
      assert |RENDER_API| != |SUPABASE_API| && |SUPABASE_API| != |VERCEL_API| && RENDER_API[0] != VERCEL_API[0];
    }
  }

  lemma GeneratorPassesIff(lib: Library, m: Manifest)
    ensures CheckGenerator(lib, m).None? <==> GeneratorStands(lib, m)
  {
    if m.generatedBy.Some? {
      var g := m.generatedBy.value;
      FormatsAre(Text(lib, g.actorId));
      FormatsAre(Text(lib, g.gitBranch));
      if GeneratorStands(lib, m) {
        SourcesAreThree(g.sources.items);
      }
    }
  }

  predicate TimestampStands(lib: Library, m: Manifest, now: int) {
    && m.generatedAt.Str? && lib.isoEpoch(m.generatedAt.text).Some?
    && now - 3600 <= lib.isoEpoch(m.generatedAt.text).value <= now + 60
  }

  predicate SectionsStand(lib: Library, m: Manifest) {
    && m.database.Some? && m.backend.Some? && m.frontend.Some? && m.configuration.Some?
    && var d, b, f, c := m.database.value, m.backend.value, m.frontend.value, m.configuration.value;
       && d.provider == Str("supabase") && d.evidenceSource == Str("supabase-management-api")
       && (d.branchType == Str("preview") || d.branchType == Str("dedicated-qa-project"))
       && b.provider == Str("render") && b.evidenceSource == Str("render-api") && b.environment == Str("preview")
       && f.provider == Str("vercel") && f.evidenceSource == Str("vercel-api") && f.environment == Str("preview")
       && c.evidenceSource == Str("render-api") && c.secretsScope == Str("preview-service")
       && Fingerprint(Text(lib, c.bootstrapFingerprint)) && c.bootstrapVersion == Str("qa-bootstrap-config-v2")
  }

  lemma TimestampPassesIff(lib: Library, m: Manifest, now: int)
    ensures CheckTimestamp(lib, m, now).None? <==> TimestampStands(lib, m, now)
  {
  }

  lemma SectionsPassIff(lib: Library, m: Manifest)
    ensures CheckSections(lib, m).None? <==> SectionsStand(lib, m)
  {
    if m.configuration.Some? {
      FormatsAre(Text(lib, m.configuration.value.bootstrapFingerprint));
    }
  }

  /** A branch project of its own, without data, distinct from production in project, endpoint, password and keys. */
  predicate DatabaseStands(lib: Library, d: Database) {
    && Lower(Text(lib, d.projectRef)) == Lower(Text(lib, d.branchRef))
    && Lower(Text(lib, d.projectRef)) !in ["", "ezkljznogqpmrjxyvklr", Lower(Text(lib, d.productionBranchRef))]
    && Lower(Text(lib, d.productionBranchRef)) != ""
    && d.withData == Bool(false) && d.userDistinct.Bool?
    && d.endpointDistinct == Bool(true) && d.passwordDistinct == Bool(true) && d.jwtDistinct == Bool(true)
    && d.fingerprintMethod == Str("sha256") && d.fingerprintVersion == Str("supabase-connection-v1")
    && Fingerprint(Text(lib, d.fingerprint)) && Fingerprint(Text(lib, d.productionFingerprint))
    && Text(lib, d.fingerprint) != Text(lib, d.productionFingerprint)
  }

  lemma DatabasePassesIff(lib: Library, d: Database)
    ensures CheckDatabase(lib, d).None? <==> DatabaseStands(lib, d)
  {
    FormatsAre(Text(lib, d.fingerprint));
    FormatsAre(Text(lib, d.productionFingerprint));
  }

  /** Backend and frontend run the manifest's commit on its branch, under identities of their own. */
  predicate DeploymentsStand(lib: Library, m: Manifest, b: Backend, f: Frontend, c: Configuration, branch: string) {
    && CommitId(Lower(Text(lib, m.codeSha)))
    && b.codeSha == f.codeSha == Str(Lower(Text(lib, m.codeSha))) && b.gitBranch == f.gitBranch == Str(branch)
    && Text(lib, b.serviceId) != "" && Text(lib, b.productionServiceId) !in ["", Text(lib, b.serviceId)]
    && Text(lib, c.environmentId) != "" && Text(lib, c.productionEnvironmentId) !in ["", Text(lib, c.environmentId)]
    && Text(lib, b.deploymentId) != "" && Text(lib, f.deploymentId) != ""
    && Text(lib, f.projectId) != "" && Text(lib, f.teamId) != ""
  }

  lemma DeploymentsPassIff(lib: Library, m: Manifest, b: Backend, f: Frontend, c: Configuration, branch: string)
    ensures CheckDeployments(lib, m, b, f, c, branch).None? <==> DeploymentsStand(lib, m, b, f, c, branch)
  {
    FormatsAre(Lower(Text(lib, m.codeSha)));
  }

  /** No lease fields at all for a preview branch; a strong lease on this commit and branch for the dedicated project. */
  predicate LeaseStands(lib: Library, i: Isolation, branchType: string, sha: string, branch: string) {
    if branchType == "preview" then
      && Text(lib, i.mode) == "supabase-branch-per-target"
      && i.leaseId == Absent && i.leaseSha == Absent && i.leaseBranch == Absent
    else
      && branchType == "dedicated-qa-project" && Text(lib, i.mode) == "dedicated-qa-baseline-exclusive"
      && i.leaseId.Str? && lib.strongLease(i.leaseId.text)
      && Text(lib, i.leaseSha) == sha && Text(lib, i.leaseBranch) == branch && Ascii(sha) && Ascii(branch)
  }

  /** What the lease fields stand for. */
  function LeaseOf(lib: Library, i: Isolation, branchType: string): Contract
    requires branchType != "preview" ==> i.leaseId.Str?
  {
    if branchType == "preview" then Contract("supabase-branch-per-target", None, None, None)
    else Contract("dedicated-qa-baseline-exclusive", Some(i.leaseId.text), Some(Text(lib, i.leaseSha)), Some(Text(lib, i.leaseBranch)))
  }

  lemma LeaseHoldsIff(lib: Library, i: Isolation, branchType: string, sha: string, branch: string)
    ensures ValidateIsolation(lib, i, branchType, sha, branch).Success? <==> LeaseStands(lib, i, branchType, sha, branch)
    ensures LeaseStands(lib, i, branchType, sha, branch) ==>
      ValidateIsolation(lib, i, branchType, sha, branch) == Success(LeaseOf(lib, i, branchType))
  {
  }

  predicate ManifestStands(lib: Library, m: Manifest, now: int, ttl: int) {
    && GeneratorStands(lib, m) && TimestampStands(lib, m, now) && SectionsStand(lib, m)
    && var d, branch := m.database.value, Text(lib, m.generatedBy.value.gitBranch);
       && DatabaseStands(lib, d)
       && DeploymentsStand(lib, m, m.backend.value, m.frontend.value, m.configuration.value, branch)
       && 60 <= ttl <= 3600
       && LeaseStands(lib, d.lease, Text(lib, d.branchType), Lower(Text(lib, m.codeSha)), branch)
  }

  lemma ManifestPassesIff(lib: Library, m: Manifest, now: int, ttl: int)
    ensures CheckManifest(lib, m, now, ttl).None? <==>
      && GeneratorStands(lib, m) && TimestampStands(lib, m, now) && SectionsStand(lib, m)
      && DatabaseStands(lib, m.database.value) && 60 <= ttl <= 3600
      && DeploymentsStand(lib, m, m.backend.value, m.frontend.value, m.configuration.value,
                          Text(lib, m.generatedBy.value.gitBranch))
  {
    GeneratorPassesIff(lib, m);
    TimestampPassesIff(lib, m, now);
    SectionsPassIff(lib, m);
    if GeneratorStands(lib, m) && SectionsStand(lib, m) {
      DatabasePassesIff(lib, m.database.value);
      DeploymentsPassIff(lib, m, m.backend.value, m.frontend.value, m.configuration.value,
                         Text(lib, m.generatedBy.value.gitBranch));
    }
  }

  /** For every manifest: a payload is built exactly if each of the conditions holds of the manifest's own fields. */
  lemma PayloadIsBuiltIff(lib: Library, m: Manifest, now: int, ttl: int, nonce: Option<string>, random: string)
    ensures BuildPayload(lib, m, now, ttl, nonce, random).Success? <==> ManifestStands(lib, m, now, ttl)
  {
    ManifestPassesIff(lib, m, now, ttl);
    if CheckManifest(lib, m, now, ttl).None? {
      var d := m.database.value;
      LeaseHoldsIff(lib, d.lease, Text(lib, d.branchType), Lower(Text(lib, m.codeSha)), Text(lib, m.generatedBy.value.gitBranch));
    }
  }

  /** And it says, field by field, what the manifest says. */
  lemma PayloadSays(lib: Library, m: Manifest, now: int, ttl: int, nonce: Option<string>, random: string, p: Payload)
    requires BuildPayload(lib, m, now, ttl, nonce, random) == Success(p)
    ensures ManifestStands(lib, m, now, ttl)
    ensures
      var d, b, f, c := m.database.value, m.backend.value, m.frontend.value, m.configuration.value;
      && p.projectRef == Str(Lower(Text(lib, d.projectRef))) && p.branchRef == Str(Lower(Text(lib, d.branchRef)))
      && p.branchType == Str(Text(lib, d.branchType)) && p.userDistinct == d.userDistinct
      && p.endpointDistinct == d.endpointDistinct && p.passwordDistinct == d.passwordDistinct && p.jwtDistinct == d.jwtDistinct
      && p.fingerprintMethod == d.fingerprintMethod && p.fingerprintVersion == d.fingerprintVersion
      && p.fingerprint == Str(Text(lib, d.fingerprint)) && p.productionFingerprint == Str(Text(lib, d.productionFingerprint))
      && p.serviceId == Str(Text(lib, b.serviceId)) && p.renderDeploymentId == Str(Text(lib, b.deploymentId))
      && p.frontendDeploymentId == Str(Text(lib, f.deploymentId)) && p.frontendProjectId == Str(Text(lib, f.projectId))
      && p.frontendTeamId == Str(Text(lib, f.teamId)) && p.environmentId == Str(Text(lib, c.environmentId))
      && p.bootstrapFingerprint == Str(Text(lib, c.bootstrapFingerprint)) && p.bootstrapVersion == c.bootstrapVersion
    ensures
      var g := m.generatedBy.value;
      && p.schemaVersion == m.schemaVersion && p.evidenceType == m.evidenceType
      && p.codeSha == m.backend.value.codeSha && p.gitBranch == m.backend.value.gitBranch
      && p.workflowRunId == g.workflowRunId && p.repository == Str(Text(lib, g.repository))
      && p.manifestHash == Str(lib.manifestHash(m)) && p.issuedAt == Int(now) && p.expiresAt == Int(now + ttl)
      && p.tokenVersion == Str("provider-evidence-ed25519-v2") && p.algorithm == Str("ed25519")
      && p.provider == Str("render+supabase+vercel")
      && p.nonce == Str(if nonce == None || nonce == Some("") then random else nonce.value)
  {
    PayloadIsBuiltIff(lib, m, now, ttl, nonce, random);
  }

  lemma PayloadCarriesContract(lib: Library, m: Manifest, now: int, ttl: int, nonce: Option<string>, random: string, p: Payload)
    requires BuildPayload(lib, m, now, ttl, nonce, random) == Success(p)
    ensures m.database.Some? && m.generatedBy.Some?
    ensures p.codeSha == Str(Lower(Text(lib, m.codeSha))) && p.gitBranch == Str(Text(lib, m.generatedBy.value.gitBranch))
    ensures
      var d := m.database.value;
      var checked := ValidateIsolation(lib, d.lease, Text(lib, d.branchType), p.codeSha.text, p.gitBranch.text);
      checked.Success? && p.lease == IsolationFields(checked.value)
  {
  }

  /** The lease fields of a payload: the mode alone for a preview branch, all four for the dedicated project. */
  lemma PayloadSaysLease(lib: Library, m: Manifest, now: int, ttl: int, nonce: Option<string>, random: string, p: Payload)
    requires BuildPayload(lib, m, now, ttl, nonce, random) == Success(p)
    ensures m.database.Some?
    ensures
      var lease, preview := m.database.value.lease, Text(lib, m.database.value.branchType) == "preview";
      && p.lease.mode == Str(Text(lib, lease.mode))
      && p.lease.leaseId == (if preview then Absent else lease.leaseId)
      && p.lease.leaseSha == (if preview then Absent else p.codeSha)
      && p.lease.leaseBranch == (if preview then Absent else p.gitBranch)
  {
    PayloadCarriesContract(lib, m, now, ttl, nonce, random, p);
    var d := m.database.value;
    LeaseHoldsIff(lib, d.lease, Text(lib, d.branchType), p.codeSha.text, p.gitBranch.text);
  }

  // ----- what the consumer asks of a payload, whoever wrote it -----

  predicate HeaderStands(lib: Library, p: Payload, bootstrap: Option<string>) {
    && p.tokenVersion == Str("provider-evidence-ed25519-v2") && p.algorithm == Str("ed25519")
    && (p.schemaVersion == Int(2) || p.schemaVersion == Int(3))
    && p.evidenceType == Str("provider-verified-isolated-preview") && p.provider == Str("render+supabase+vercel")
    && Fingerprint(Text(lib, p.manifestHash))
    && 32 <= |Text(lib, p.nonce)| <= 128 && HexDigits(Text(lib, p.nonce))
    && p.bootstrapVersion == Str("qa-bootstrap-config-v2")
    && Fingerprint(Text(lib, p.bootstrapFingerprint)) && bootstrap == Some(Text(lib, p.bootstrapFingerprint))
  }

  lemma HexIsAscii(s: string)
    requires HexDigits(s)
    ensures Ascii(s)
  {
    HexDigitsAre(s);
  }

  lemma FingerprintsAreAscii(s: string)
    requires Fingerprint(s)
    ensures Ascii(s)
  {
    HexIsAscii(s[7..]);
    assert s == s[..7] + s[7..] && s[..7] == "sha256:" && Ascii(s[..7]);
  }

  lemma HeaderPassesIff(lib: Library, p: Payload, env: Environment)
    ensures CheckHeader(lib, p).None? && CheckBootstrap(lib, p, env).None? <==> HeaderStands(lib, p, env.bootstrap)
  {
    var bound := Text(lib, p.bootstrapFingerprint);
    FormatsAre(Text(lib, p.manifestHash));
    FormatsAre(Text(lib, p.nonce));
    FormatsAre(bound);
    if Fingerprint(bound) {
      FingerprintsAreAscii(bound);
    }
  }

  predicate WindowStands(p: Payload, now: int) {
    && p.issuedAt.Int? && p.expiresAt.Int? && 60 <= p.expiresAt.number - p.issuedAt.number <= 3600
    && p.issuedAt.number - 30 <= now <= p.expiresAt.number
  }

  lemma WindowPassesIff(p: Payload, now: int)
    ensures CheckWindow(p, now).None? <==> WindowStands(p, now)
  {
  }

  /** The text has the part somewhere in it. */
  ghost predicate Holds(s: string, part: string) {
    exists before, after :: s == before + part + after
  }

  lemma ContainsIff(s: string, part: string)
    ensures Contains(s, part) <==> Holds(s, part)
  {
    if Contains(s, part) {
      var i :| 0 <= i <= |s| && part <= s[i..];
      assert s == s[..i] + part + s[i + |part|..];
    }
    if Holds(s, part) {
      var before, after :| s == before + part + after;
      assert s[|before|..] == part + after;
    }
  }

  /** The role of the connection: postgres, or one of its own that is named for a test environment. */
  ghost predicate RoleStands(lib: Library, username: string, distinct: bool) {
    var role := Lower(lib.trim(Lower(username)));
    && lib.rolePattern(role) && Ascii(Lower(username))
    && (role == "postgres"
        || (distinct && (Holds(role, "qa") || Holds(role, "preview") || Holds(role, "test") || Holds(role, "e2e"))))
  }

  lemma RolePassesIff(lib: Library, username: string, distinct: bool)
    ensures RoleAllowed(lib, Lower(username), distinct) && Ascii(Lower(username)) <==> RoleStands(lib, username, distinct)
  {
    var role := Lower(lib.trim(Lower(username)));
    ContainsIff(role, "qa");
    ContainsIff(role, "preview");
    ContainsIff(role, "test");
    ContainsIff(role, "e2e");
  }

  /** The connection is the branch project's and not production's. */
  ghost predicate ConnectionStands(lib: Library, p: Payload, i: Identity) {
    var project, mine, theirs := Lower(Text(lib, p.projectRef)), Text(lib, p.fingerprint), Text(lib, p.productionFingerprint);
    && project !in ["", "ezkljznogqpmrjxyvklr"] && Lower(Text(lib, p.branchRef)) == project
    && (Text(lib, p.branchType) == "preview" || Text(lib, p.branchType) == "dedicated-qa-project")
    && p.userDistinct.Bool? && RoleStands(lib, i.username, p.userDistinct.flag)
    && !Holds(Lower(i.host + "|" + lib.text(Int(i.port)) + "|" + i.database + "|" + i.username), "ezkljznogqpmrjxyvklr")
    && p.fingerprintMethod == Str("sha256") && p.fingerprintVersion == Str("supabase-connection-v1")
    && i.database == "postgres" && lib.fingerprint(project, i) == Some(mine)
    && Fingerprint(mine) && Fingerprint(theirs) && mine != theirs
  }

  lemma TargetPassesIff(lib: Library, p: Payload, i: Identity)
    ensures CheckTarget(lib, p, i).None? && CheckConnection(lib, p, i).None? <==> ConnectionStands(lib, p, i)
  {
    var mine := Text(lib, p.fingerprint);
    FormatsAre(mine);
    FormatsAre(Text(lib, p.productionFingerprint));
    ContainsIff(TargetText(lib, i), PRODUCTION_REF);
    if p.userDistinct.Bool? {
      RolePassesIff(lib, i.username, p.userDistinct.flag);
    }
    if Fingerprint(mine) {
      FingerprintsAreAscii(mine);
    }
  }

  predicate OriginStands(lib: Library, p: Payload, env: Environment) {
    && CommitId(Lower(Text(lib, p.codeSha))) && Lower(env.codeSha) == Lower(Text(lib, p.codeSha))
    && env.serviceId == Text(lib, p.serviceId) != "" && Ascii(env.serviceId)
    && Text(lib, p.gitBranch) !in ["", "main", "master", "production"]
    && p.workflowRunId.Int? && p.workflowRunId.number >= 1 && '/' in Text(lib, p.repository)
  }

  lemma OriginPassesIff(lib: Library, p: Payload, env: Environment)
    ensures CheckOrigin(lib, p, env).None? <==> OriginStands(lib, p, env)
  {
    var sha := Lower(Text(lib, p.codeSha));
    FormatsAre(sha);
    FormatsAre(Text(lib, p.gitBranch));
    if CommitId(sha) {
      HexIsAscii(sha);
    }
  }

  predicate IdentifiersStand(lib: Library, p: Payload) {
    && "" !in [Text(lib, p.environmentId), Text(lib, p.renderDeploymentId), Text(lib, p.frontendDeploymentId),
               Text(lib, p.frontendProjectId), Text(lib, p.frontendTeamId)]
    && p.endpointDistinct == Bool(true) && p.passwordDistinct == Bool(true) && p.jwtDistinct == Bool(true)
  }

  lemma IdentifiersPassIff(lib: Library, p: Payload)
    ensures CheckIdentifiers(lib, p).None? <==> IdentifiersStand(lib, p)
  {
  }

  ghost predicate PayloadStands(lib: Library, p: Payload, env: Environment) {
    && HeaderStands(lib, p, env.bootstrap) && WindowStands(p, env.now)
    && env.identity.Some? && ConnectionStands(lib, p, env.identity.value) && OriginStands(lib, p, env)
    && LeaseStands(lib, p.lease, Text(lib, p.branchType), Lower(Text(lib, p.codeSha)), Text(lib, p.gitBranch))
    && IdentifiersStand(lib, p)
  }

  lemma ChecksPassIff(lib: Library, p: Payload, env: Environment)
    ensures CheckPayload(lib, p, env).None? <==>
      && HeaderStands(lib, p, env.bootstrap) && WindowStands(p, env.now)
      && env.identity.Some? && ConnectionStands(lib, p, env.identity.value) && OriginStands(lib, p, env)
  {
    HeaderPassesIff(lib, p, env);
    WindowPassesIff(p, env.now);
    OriginPassesIff(lib, p, env);
    if env.identity.Some? {
      TargetPassesIff(lib, p, env.identity.value);
    }
  }

  /** For every payload, built by the producer or not: it is accepted exactly if each of the conditions holds. */
  lemma PayloadIsAcceptedIff(lib: Library, p: Payload, env: Environment)
    ensures VerifyPayload(lib, p, env).Success? <==> PayloadStands(lib, p, env)
  {
    ChecksPassIff(lib, p, env);
    LeaseHoldsIff(lib, p.lease, Text(lib, p.branchType), Lower(Text(lib, p.codeSha)), Text(lib, p.gitBranch));
    IdentifiersPassIff(lib, p);
    assert CheckHeader(lib, p).None? ==> p.schemaVersion.Int?;
  }

  /** And the evidence says what the payload says, with the role of the connection. */
  lemma EvidenceSays(lib: Library, p: Payload, env: Environment)
    requires PayloadStands(lib, p, env)
    ensures VerifyPayload(lib, p, env).Success?
    ensures
      var e := VerifyPayload(lib, p, env).value;
      && p.schemaVersion == Int(e.schemaVersion) && e.codeSha == Lower(env.codeSha) && e.serviceId == env.serviceId
      && e.environmentId == Text(lib, p.environmentId) && e.frontendDeploymentId == Text(lib, p.frontendDeploymentId)
      && e.projectRef == e.branchRef == Lower(Text(lib, p.projectRef)) && e.branchType == Text(lib, p.branchType)
      && e.databaseRole == Lower(env.identity.value.username)
      && e.fingerprint == Text(lib, p.fingerprint) && e.productionFingerprint == Text(lib, p.productionFingerprint)
      && e.contract == LeaseOf(lib, p.lease, e.branchType)
  {
    PayloadIsAcceptedIff(lib, p, env);
    LeaseHoldsIff(lib, p.lease, Text(lib, p.branchType), Lower(Text(lib, p.codeSha)), Text(lib, p.gitBranch));
  }

  // ----- what the consumer asks of a token, whoever made it -----

  /** Two segments around one dot: a signature that verifies the first, and the object the first encodes. */
  ghost predicate TokenStands(lib: Library, token: string, body: string, signature: string, p: Payload) {
    && token == body + "." + signature && '.' !in body && '.' !in signature && Ascii(body)
    && Codec.DecodeSegment(signature).Success? && lib.verify(Codec.DecodeSegment(signature).value, body)
    && Codec.DecodeSegment(body).Success? && lib.parse(Codec.DecodeSegment(body).value) == Object(p)
  }

  lemma AcceptedTokenStands(lib: Library, token: string, env: Environment) returns (body: string, signature: string, p: Payload)
    requires VerifyToken(lib, token, env).Success?
    ensures TokenStands(lib, token, body, signature, p) && VerifyPayload(lib, p, env).Success?
  {
    var dot := FirstDot(token);
    body, signature := token[..dot], token[dot + 1..];
    assert token == body + "." + signature;
    p := lib.parse(Codec.DecodeSegment(body).value).payload;
  }

  lemma StandingTokenIsRead(lib: Library, token: string, body: string, signature: string, p: Payload, env: Environment)
    requires TokenStands(lib, token, body, signature, p)
    ensures VerifyToken(lib, token, env) == VerifyPayload(lib, p, env)
  {
    FirstDotSplits(body, signature);
    assert token[..|body|] == body && token[|body| + 1..] == signature;
  }

  /** For every text: it is accepted exactly if it is a token of a payload that is. */
  lemma TokenIsAcceptedIff(lib: Library, token: string, env: Environment)
    ensures VerifyToken(lib, token, env).Success? <==>
      exists body, signature, p :: TokenStands(lib, token, body, signature, p) && PayloadStands(lib, p, env)
  {
    if VerifyToken(lib, token, env).Success? {
      var body, signature, p := AcceptedTokenStands(lib, token, env);
      PayloadIsAcceptedIff(lib, p, env);
    }
    if body, signature, p :| TokenStands(lib, token, body, signature, p) && PayloadStands(lib, p, env) {
      StandingTokenIsRead(lib, token, body, signature, p, env);
      PayloadIsAcceptedIff(lib, p, env);
    }
  }
}
