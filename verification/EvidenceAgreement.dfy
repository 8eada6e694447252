/**
 Producer and consumer of the provider evidence token agree: a payload that was
 built is refused only for what the producer could not know.
 */
module EvidenceAgreement {
  import opened Wrappers
  import Codec = EvidenceCodec
  import opened EvidenceToken

  // ----- what is asked of the libraries -----

  /** Hashes print as `sha256:` and 64 hex digits. */
  ghost predicate HashesAreFingerprints(lib: Library) {
    forall m: Manifest :: IsFingerprint(lib.manifestHash(m))
  }

  /** JSON text reads back as the object it was written from, signatures verify, and neither is empty. */
  ghost predicate SignsAndParses(lib: Library, p: Payload) {
    var body := Codec.EncodeSegment(lib.render(p));
    && lib.render(p) != [] && lib.parse(lib.render(p)) == Object(p)
    && lib.sign(body) != [] && lib.verify(lib.sign(body), body)
  }

  // ----- what every built payload satisfies -----

  predicate GoodHeader(p: Payload) {
    && p.tokenVersion == Str(TOKEN_VERSION) && p.algorithm == Str(ALGORITHM)
    && (p.schemaVersion == Int(2) || p.schemaVersion == Int(3))
    && p.evidenceType == Str(EVIDENCE_TYPE) && p.provider == Str(PROVIDERS)
    && p.manifestHash.Str? && IsFingerprint(p.manifestHash.text) && p.nonce.Str?
    && p.bootstrapVersion == Str(BOOTSTRAP_VERSION)
    && p.bootstrapFingerprint.Str? && IsFingerprint(p.bootstrapFingerprint.text)
  }

  predicate GoodWindow(p: Payload) {
    p.issuedAt.Int? && p.expiresAt.Int? && MIN_TTL <= p.expiresAt.number - p.issuedAt.number <= MAX_TTL
  }

  predicate GoodTarget(p: Payload) {
    && p.projectRef.Str? && p.projectRef.text != "" && Lower(p.projectRef.text) == p.projectRef.text != PRODUCTION_REF
    && p.branchType.Str? && (p.branchType.text == PREVIEW || p.branchType.text == DEDICATED)
    && p.branchRef == p.projectRef && p.userDistinct.Bool?
    && p.fingerprintMethod == Str(SHA256) && p.fingerprintVersion == Str(CONNECTION_V1)
    && p.fingerprint.Str? && IsFingerprint(p.fingerprint.text)
    && p.productionFingerprint.Str? && IsFingerprint(p.productionFingerprint.text)
    && p.fingerprint.text != p.productionFingerprint.text
  }

  predicate GoodOrigin(p: Payload) {
    && p.codeSha.Str? && IsSha(p.codeSha.text) && Lower(p.codeSha.text) == p.codeSha.text
    && p.serviceId.Str? && p.serviceId.text != ""
    && p.gitBranch.Str? && p.gitBranch.text != "" && !ProtectedBranch(p.gitBranch.text)
    && p.workflowRunId.Int? && p.workflowRunId.number > 0
    && p.repository.Str? && '/' in p.repository.text
  }

  predicate Named(j: Json) {
    j.Str? && j.text != ""
  }

  predicate GoodIdentifiers(p: Payload) {
    && Named(p.environmentId) && Named(p.renderDeploymentId)
    && Named(p.frontendDeploymentId) && Named(p.frontendProjectId) && Named(p.frontendTeamId)
    && p.endpointDistinct == p.passwordDistinct == p.jwtDistinct == Bool(true)
  }

  /** The lease fields are those of a contract the same validation accepts. */
  predicate GoodLease(lib: Library, p: Payload)
    requires GoodOrigin(p) && GoodTarget(p)
  {
    var checked := ValidateIsolation(lib, p.lease, p.branchType.text, p.codeSha.text, p.gitBranch.text);
    checked.Success? && p.lease == IsolationFields(checked.value)
  }

  predicate WellBuilt(lib: Library, p: Payload) {
    GoodHeader(p) && GoodWindow(p) && GoodTarget(p) && GoodOrigin(p) && GoodIdentifiers(p) && GoodLease(lib, p)
  }

  // ----- what is left to the consumer's own context -----

  /** The database connection: not the production one, a permitted role, and the fingerprint of the manifest. */
  predicate ConnectionAccepts(lib: Library, project: string, fingerprint: string, distinct: bool, i: Identity) {
    && i.database == POSTGRES && !Contains(TargetText(lib, i), PRODUCTION_REF)
    && RoleAllowed(lib, Lower(i.username), distinct) && Ascii(Lower(i.username))
    && lib.fingerprint(project, i) == Some(fingerprint)
  }

  /** Everything the verdict on a built payload still depends on. */
  predicate ContextAccepts(lib: Library, p: Payload, env: Environment)
    requires GoodHeader(p) && GoodWindow(p) && GoodTarget(p) && GoodOrigin(p)
  {
    && IsNonce(p.nonce.text)
    && env.bootstrap == Some(p.bootstrapFingerprint.text)
    && p.issuedAt.number - 30 <= env.now <= p.expiresAt.number
    && env.identity.Some?
    && ConnectionAccepts(lib, p.projectRef.text, p.fingerprint.text, p.userDistinct.flag, env.identity.value)
    && Lower(env.codeSha) == p.codeSha.text
    && env.serviceId == p.serviceId.text && Ascii(env.serviceId)
  }

  /** The evidence that reads the fields of a payload as they are. */
  function EvidenceOf(lib: Library, p: Payload, role: string): Evidence
    requires WellBuilt(lib, p)
  {
    Evidence(
      p.schemaVersion.number, p.codeSha.text, p.serviceId.text, p.environmentId.text, p.frontendDeploymentId.text,
      p.projectRef.text, p.branchType.text, p.branchRef.text, role, p.fingerprint.text, p.productionFingerprint.text,
      ValidateIsolation(lib, p.lease, p.branchType.text, p.codeSha.text, p.gitBranch.text).value)
  }

  // ----- text facts -----

  lemma FingerprintIsAscii(s: string)
    requires IsFingerprint(s)
    ensures Ascii(s)
  {
    assert Ascii(s[..7]) && Ascii(s[7..]);
    forall i | 0 <= i < |s| ensures s[i] as int < 128 {
      assert s[i] == if i < 7 then s[..7][i] else s[7..][i - 7];
    }
  }

  lemma ShaIsAscii(s: string)
    requires IsSha(s)
    ensures Ascii(s)
  {
  }

  // ----- a built payload meets its own checks -----

  /** The isolation fields a contract is written to are accepted again, as the same contract. */
  lemma IsolationSurvives(lib: Library, i: Isolation, branchType: string, codeSha: string, gitBranch: string)
    requires ValidateIsolation(lib, i, branchType, codeSha, gitBranch).Success?
    ensures
      var c := ValidateIsolation(lib, i, branchType, codeSha, gitBranch).value;
      ValidateIsolation(lib, IsolationFields(c), branchType, codeSha, gitBranch) == Success(c)
  {
  }

  lemma BuiltDatabaseIsGood(lib: Library, d: Database)
    requires CheckDatabase(lib, d).None?
    ensures
      var project := Lower(Text(lib, d.projectRef));
      && project != "" && Lower(project) == project != PRODUCTION_REF && Lower(Text(lib, d.branchRef)) == project
      && d.userDistinct.Bool? && IsFingerprint(Text(lib, d.fingerprint)) && IsFingerprint(Text(lib, d.productionFingerprint))
      && Text(lib, d.fingerprint) != Text(lib, d.productionFingerprint)
  {
    LowerIsIdempotent(Text(lib, d.projectRef));
  }

  lemma BuiltDeploymentsAreGood(lib: Library, m: Manifest, b: Backend, f: Frontend, c: Configuration, branch: string)
    requires CheckDeployments(lib, m, b, f, c, branch).None?
    ensures IsSha(Lower(Text(lib, m.codeSha)))
    ensures Text(lib, b.serviceId) != "" && Text(lib, c.environmentId) != "" && Text(lib, b.deploymentId) != ""
    ensures Text(lib, f.deploymentId) != "" && Text(lib, f.projectId) != "" && Text(lib, f.teamId) != ""
  {
  }

  lemma BuiltTargetIsGood(lib: Library, m: Manifest, now: int, ttl: int, nonce: Option<string>, random: string,
                          p: Payload)
    requires BuildPayload(lib, m, now, ttl, nonce, random) == Success(p)
    ensures GoodTarget(p)
  {
    BuiltDatabaseIsGood(lib, m.database.value);
  }

  lemma BuiltOriginIsGood(lib: Library, m: Manifest, now: int, ttl: int, nonce: Option<string>, random: string,
                          p: Payload)
    requires BuildPayload(lib, m, now, ttl, nonce, random) == Success(p)
    ensures GoodOrigin(p)
  {
    BuiltDeploymentsAreGood(lib, m, m.backend.value, m.frontend.value, m.configuration.value,
                            Text(lib, m.generatedBy.value.gitBranch));
    LowerIsIdempotent(Text(lib, m.codeSha));
  }

  lemma BuiltIdentifiersAreGood(lib: Library, m: Manifest, now: int, ttl: int, nonce: Option<string>, random: string,
                                p: Payload)
    requires BuildPayload(lib, m, now, ttl, nonce, random) == Success(p)
    ensures GoodIdentifiers(p)
  {
    BuiltDeploymentsAreGood(lib, m, m.backend.value, m.frontend.value, m.configuration.value,
                            Text(lib, m.generatedBy.value.gitBranch));
  }

  lemma BuiltIsWellBuilt(lib: Library, m: Manifest, now: int, ttl: int, nonce: Option<string>, random: string,
                         p: Payload)
    requires HashesAreFingerprints(lib)
    requires BuildPayload(lib, m, now, ttl, nonce, random) == Success(p)
    ensures WellBuilt(lib, p)
  {
    BuiltTargetIsGood(lib, m, now, ttl, nonce, random, p);
    BuiltOriginIsGood(lib, m, now, ttl, nonce, random, p);
    BuiltIdentifiersAreGood(lib, m, now, ttl, nonce, random, p);
    assert IsFingerprint(lib.manifestHash(m));
    assert GoodHeader(p) && GoodWindow(p);
    IsolationSurvives(lib, m.database.value.lease, Text(lib, m.database.value.branchType), Lower(Text(lib, m.codeSha)),
                      Text(lib, m.generatedBy.value.gitBranch));
  }

  // ----- section by section, only the context is left to refuse -----

  lemma HeaderVerdict(lib: Library, p: Payload, env: Environment)
    requires GoodHeader(p)
    ensures CheckHeader(lib, p).None? <==> IsNonce(p.nonce.text)
    ensures CheckBootstrap(lib, p, env).None? <==> env.bootstrap == Some(p.bootstrapFingerprint.text)
  {
    FingerprintIsAscii(p.bootstrapFingerprint.text);
  }

  lemma TargetVerdict(lib: Library, p: Payload, i: Identity)
    requires GoodTarget(p)
    ensures (CheckTarget(lib, p, i).None? && CheckConnection(lib, p, i).None?)
         <==> ConnectionAccepts(lib, p.projectRef.text, p.fingerprint.text, p.userDistinct.flag, i)
  {
    FingerprintIsAscii(p.fingerprint.text);
    assert Text(lib, p.projectRef) == p.projectRef.text;
  }

  lemma OriginVerdict(lib: Library, p: Payload, env: Environment)
    requires GoodOrigin(p)
    ensures CheckOrigin(lib, p, env).None? <==>
      Lower(env.codeSha) == p.codeSha.text && env.serviceId == p.serviceId.text && Ascii(env.serviceId)
  {
    ShaIsAscii(p.codeSha.text);
  }

  lemma ChecksVerdict(lib: Library, p: Payload, env: Environment)
    requires GoodHeader(p) && GoodWindow(p) && GoodTarget(p) && GoodOrigin(p)
    ensures CheckPayload(lib, p, env).None? <==> ContextAccepts(lib, p, env)
  {
    HeaderVerdict(lib, p, env);
    OriginVerdict(lib, p, env);
    if env.identity.Some? {
      TargetVerdict(lib, p, env.identity.value);
    }
  }

  lemma IdentifiersPass(lib: Library, p: Payload)
    requires GoodIdentifiers(p)
    ensures CheckIdentifiers(lib, p).None?
  {
  }

  /** The verdict on a well-built payload: the context decides alone, and the evidence is the payload's own fields. */
  lemma ContextDecides(lib: Library, p: Payload, env: Environment)
    requires WellBuilt(lib, p)
    ensures VerifyPayload(lib, p, env).Success? <==> ContextAccepts(lib, p, env)
    ensures ContextAccepts(lib, p, env) ==>
      VerifyPayload(lib, p, env) == Success(EvidenceOf(lib, p, Lower(env.identity.value.username)))
  {
    ChecksVerdict(lib, p, env);
    IdentifiersPass(lib, p);
    assert Lower(Text(lib, p.codeSha)) == p.codeSha.text && Lower(Text(lib, p.projectRef)) == p.projectRef.text;
  }

  // ----- the token around the payload -----

  lemma SegmentHasNoDot(b: seq<Codec.Byte>)
    ensures '.' !in Codec.EncodeSegment(b) && Ascii(Codec.EncodeSegment(b))
  {
    var s := Codec.EncodeSegment(b);
    Codec.TextAndValuesInvert(Codec.Pack(b), "");
    forall i | 0 <= i < |s| ensures s[i] != '.' && s[i] as int < 128 {
      assert Codec.Value(s[i]).Some?;
    }
  }

  /** A token that was issued for a payload gets exactly the verdict on that payload. */
  lemma TokenCarriesPayload(lib: Library, p: Payload, env: Environment)
    requires SignsAndParses(lib, p)
    ensures VerifyToken(lib, IssueToken(lib, p), env) == VerifyPayload(lib, p, env)
  {
    var body := Codec.EncodeSegment(lib.render(p));
    var signature := Codec.EncodeSegment(lib.sign(body));
    var token := IssueToken(lib, p);
    SegmentHasNoDot(lib.render(p));
    SegmentHasNoDot(lib.sign(body));
    FirstDotSplits(body, signature);
    assert token[..|body|] == body && token[|body| + 1..] == signature;
    Codec.RoundTrip(lib.render(p));
    Codec.RoundTrip(lib.sign(body));
  }

  /** The producer's token is accepted exactly in a context that matches, in both isolation modes. */
  lemma ProducerAndConsumerAgree(
      lib: Library, m: Manifest, now: int, ttl: int, nonce: Option<string>, random: string, p: Payload, env: Environment)
    requires HashesAreFingerprints(lib)
    requires BuildPayload(lib, m, now, ttl, nonce, random) == Success(p)
    ensures WellBuilt(lib, p)
    ensures SignsAndParses(lib, p) ==>
      var verdict := VerifyToken(lib, IssueToken(lib, p), env);
      && (verdict.Success? <==> ContextAccepts(lib, p, env))
      && (verdict.Success? ==> verdict.value == EvidenceOf(lib, p, Lower(env.identity.value.username)))
  {
    BuiltIsWellBuilt(lib, m, now, ttl, nonce, random, p);
    ContextDecides(lib, p, env);
    if SignsAndParses(lib, p) {
      TokenCarriesPayload(lib, p, env);
    }
  }

  lemma ManifestDiffersFromProduction(lib: Library, m: Manifest, now: int, ttl: int)
    requires CheckManifest(lib, m, now, ttl).None?
    ensures m.generatedBy.Some? && m.database.Some? && m.backend.Some? && m.frontend.Some? && m.configuration.Some?
    ensures
      var sha, d, b, f, c := Str(Lower(Text(lib, m.codeSha))), m.database.value, m.backend.value, m.frontend.value,
                             m.configuration.value;
      && b.codeSha == sha && f.codeSha == sha
      && Text(lib, d.fingerprint) != Text(lib, d.productionFingerprint)
      && Lower(Text(lib, d.projectRef)) != Lower(Text(lib, d.productionBranchRef))
      && Text(lib, b.serviceId) != Text(lib, b.productionServiceId)
      && Text(lib, c.environmentId) != Text(lib, c.productionEnvironmentId)
  {
  }

  lemma PayloadNamesManifest(lib: Library, m: Manifest, now: int, ttl: int, nonce: Option<string>, random: string,
                             p: Payload)
    requires BuildPayload(lib, m, now, ttl, nonce, random) == Success(p)
    ensures CheckManifest(lib, m, now, ttl).None?
    ensures m.database.Some? && m.backend.Some? && m.frontend.Some? && m.configuration.Some?
    ensures p.schemaVersion == m.schemaVersion && p.codeSha == Str(Lower(Text(lib, m.codeSha)))
    ensures p.serviceId == Str(Text(lib, m.backend.value.serviceId))
    ensures p.frontendDeploymentId == Str(Text(lib, m.frontend.value.deploymentId))
    ensures p.fingerprint == Str(Text(lib, m.database.value.fingerprint))
    ensures p.projectRef == Str(Lower(Text(lib, m.database.value.projectRef)))
    ensures p.environmentId == Str(Text(lib, m.configuration.value.environmentId))
  {
  }

  /** The evidence is about the manifest that was signed, and about nothing of production's. */
  lemma EvidenceReportsManifest(lib: Library, m: Manifest, now: int, ttl: int, nonce: Option<string>, random: string,
                                p: Payload, role: string)
    requires HashesAreFingerprints(lib)
    requires BuildPayload(lib, m, now, ttl, nonce, random) == Success(p)
    ensures WellBuilt(lib, p)
    ensures m.database.Some? && m.backend.Some? && m.frontend.Some? && m.configuration.Some?
    ensures
      var e := EvidenceOf(lib, p, role);
      var d, b, f, c := m.database.value, m.backend.value, m.frontend.value, m.configuration.value;
      && m.schemaVersion == Int(e.schemaVersion) && e.codeSha == Lower(Text(lib, m.codeSha))
      && b.codeSha == f.codeSha == Str(e.codeSha)
      && e.frontendDeploymentId == Text(lib, f.deploymentId)
      && e.serviceId == Text(lib, b.serviceId) != Text(lib, b.productionServiceId)
      && e.fingerprint == Text(lib, d.fingerprint) != Text(lib, d.productionFingerprint)
      && e.projectRef == e.branchRef == Lower(Text(lib, d.projectRef)) != Lower(Text(lib, d.productionBranchRef))
      && e.environmentId == Text(lib, c.environmentId) != Text(lib, c.productionEnvironmentId)
  {
    BuiltIsWellBuilt(lib, m, now, ttl, nonce, random, p);
    PayloadNamesManifest(lib, m, now, ttl, nonce, random, p);
    ManifestDiffersFromProduction(lib, m, now, ttl);
  }

  /** The isolation contract of the evidence is the one that the manifest's lease fields stand for. */
  lemma PayloadKeepsContract(lib: Library, m: Manifest, now: int, ttl: int, nonce: Option<string>, random: string,
                             p: Payload, role: string)
    requires HashesAreFingerprints(lib)
    requires BuildPayload(lib, m, now, ttl, nonce, random) == Success(p)
    ensures WellBuilt(lib, p) && m.generatedBy.Some? && m.database.Some?
    ensures ValidateIsolation(lib, m.database.value.lease, p.branchType.text, p.codeSha.text,
                              Text(lib, m.generatedBy.value.gitBranch)) == Success(EvidenceOf(lib, p, role).contract)
  {
    BuiltIsWellBuilt(lib, m, now, ttl, nonce, random, p);
    IsolationSurvives(lib, m.database.value.lease, Text(lib, m.database.value.branchType), Lower(Text(lib, m.codeSha)),
                      Text(lib, m.generatedBy.value.gitBranch));
  }

  /** Staleness, skew and lifetime add up: accepted evidence is about a manifest at most two hours old. */
  lemma AcceptedManifestIsRecent(lib: Library, m: Manifest, now: int, ttl: int, nonce: Option<string>, random: string,
                                 p: Payload, env: Environment)
    requires HashesAreFingerprints(lib)
    requires BuildPayload(lib, m, now, ttl, nonce, random) == Success(p)
    ensures m.generatedAt.Str? && lib.isoEpoch(m.generatedAt.text).Some?
    ensures VerifyPayload(lib, p, env).Success? ==>
      lib.isoEpoch(m.generatedAt.text).value - 90 <= env.now <= lib.isoEpoch(m.generatedAt.text).value + 2 * MAX_TTL
  {
    BuiltIsWellBuilt(lib, m, now, ttl, nonce, random, p);
    ContextDecides(lib, p, env);
    BuiltWindow(lib, m, now, ttl, nonce, random, p);
  }

  lemma BuiltWindow(lib: Library, m: Manifest, now: int, ttl: int, nonce: Option<string>, random: string, p: Payload)
    requires BuildPayload(lib, m, now, ttl, nonce, random) == Success(p)
    ensures CheckTimestamp(lib, m, now).None? && ttl <= MAX_TTL
    ensures p.issuedAt == Int(now) && p.expiresAt == Int(now + ttl)
  {
  }

  // ----- the builder does build -----

  /** A commit, a project beside production, their fingerprints, and a branch; every other identifier is the branch's name. */
  datatype Target = Target(stamp: string, sha: string, project: string, production: string, mine: string, theirs: string,
                           bound: string, branch: string, actor: string, repository: string)

  predicate WellFormed(lib: Library, t: Target, now: int) {
    && lib.isoEpoch(t.stamp) == Some(now) && IsSha(t.sha) && Lower(t.sha) == t.sha
    && t.project != "" && t.production != "" && Lower(t.project) != Lower(t.production) && Lower(t.project) != PRODUCTION_REF
    && IsFingerprint(t.mine) && IsFingerprint(t.theirs) && t.mine != t.theirs && IsFingerprint(t.bound)
    && t.branch != "" && !ProtectedBranch(t.branch) && Digits(t.actor) && '/' in t.repository && t.repository != t.branch
  }

  function DatabaseFor(t: Target, branchType: string, lease: Isolation): Database {
    Database(Str(SUPABASE), Str(SUPABASE_API), Str(branchType), Str(t.project), Str(t.project), Str(t.production),
             Bool(false), Bool(true), Bool(true), Bool(true), Bool(true), Str(SHA256), Str(CONNECTION_V1),
             Str(t.mine), Str(t.theirs), lease)
  }

  function ManifestFor(t: Target, branchType: string, lease: Isolation): Manifest {
    var branch, sha, repository := Str(t.branch), Str(t.sha), Str(t.repository);
    Manifest(
      Int(3), Str(EVIDENCE_TYPE),
      Some(Generator(Str(VERIFIER), Int(1), List([Str(RENDER_API), Str(SUPABASE_API), Str(VERCEL_API)]), Str(WORKFLOW),
                     Str(PREVIEW_QA), Str(DISPATCH), Str(t.actor), repository, branch)),
      Str(t.stamp), sha,
      Some(DatabaseFor(t, branchType, lease)),
      Some(Backend(Str(RENDER), Str(RENDER_API), Str(PREVIEW), sha, branch, branch, repository, branch)),
      Some(Frontend(Str(VERCEL), Str(VERCEL_API), Str(PREVIEW), sha, branch, branch, branch, branch)),
      Some(Configuration(Str(RENDER_API), Str(PREVIEW_SERVICE), Str(t.bound), Str(BOOTSTRAP_VERSION), branch, repository)))
  }

  lemma DatabasePasses(lib: Library, t: Target, now: int, branchType: string, lease: Isolation)
    requires WellFormed(lib, t, now)
    ensures CheckDatabase(lib, DatabaseFor(t, branchType, lease)).None?
  {
    assert |Lower(t.project)| == |t.project| && |Lower(t.production)| == |t.production|;
  }

  lemma OriginPasses(lib: Library, t: Target, now: int, branchType: string, lease: Isolation)
    requires WellFormed(lib, t, now)
    ensures CheckGenerator(lib, ManifestFor(t, branchType, lease)).None?
    ensures CheckTimestamp(lib, ManifestFor(t, branchType, lease), now).None?
  {
  }

  lemma SectionsPass(lib: Library, t: Target, now: int, branchType: string, lease: Isolation)
    requires WellFormed(lib, t, now) && (branchType == PREVIEW || branchType == DEDICATED)
    ensures
      var m := ManifestFor(t, branchType, lease);
      && CheckSections(lib, m).None?
      && CheckDeployments(lib, m, m.backend.value, m.frontend.value, m.configuration.value, t.branch).None?
  {
  }

  lemma ManifestPasses(lib: Library, t: Target, now: int, ttl: int, branchType: string, lease: Isolation)
    requires WellFormed(lib, t, now) && MIN_TTL <= ttl <= MAX_TTL && (branchType == PREVIEW || branchType == DEDICATED)
    ensures CheckManifest(lib, ManifestFor(t, branchType, lease), now, ttl).None?
  {
    OriginPasses(lib, t, now, branchType, lease);
    SectionsPass(lib, t, now, branchType, lease);
    DatabasePasses(lib, t, now, branchType, lease);
  }

  /** No lease fields for a preview branch; a strong lease on this commit and branch for the dedicated project. */
  predicate LeaseFits(lib: Library, lease: Isolation, branchType: string, sha: string, branch: string) {
    if branchType == PREVIEW then
      Text(lib, lease.mode) == PER_BRANCH && lease.leaseId == lease.leaseSha == lease.leaseBranch == Absent
    else
      && branchType == DEDICATED && Text(lib, lease.mode) == EXCLUSIVE
      && lease.leaseId.Str? && lib.strongLease(lease.leaseId.text)
      && Text(lib, lease.leaseSha) == sha && Text(lib, lease.leaseBranch) == branch && Ascii(branch)
  }

  lemma IsolationHoldsIff(lib: Library, lease: Isolation, branchType: string, sha: string, branch: string)
    requires IsSha(sha)
    ensures ValidateIsolation(lib, lease, branchType, sha, branch).Success? <==> LeaseFits(lib, lease, branchType, sha, branch)
  {
  }

  lemma PassedManifestIsBuiltIff(lib: Library, m: Manifest, now: int, ttl: int, nonce: Option<string>, random: string)
    requires CheckManifest(lib, m, now, ttl).None?
    ensures m.generatedBy.Some? && m.database.Some?
    ensures
      BuildPayload(lib, m, now, ttl, nonce, random).Success?
      <==> ValidateIsolation(lib, m.database.value.lease, Text(lib, m.database.value.branchType), Lower(Text(lib, m.codeSha)),
                             Text(lib, m.generatedBy.value.gitBranch)).Success?
  {
  }

  /** With well-formed inputs the producer issues in both modes, so the theorems above speak of existing tokens. */
  lemma ManifestIsBuiltIff(lib: Library, t: Target, now: int, ttl: int, nonce: string, branchType: string, lease: Isolation)
    requires WellFormed(lib, t, now) && MIN_TTL <= ttl <= MAX_TTL && (branchType == PREVIEW || branchType == DEDICATED)
    ensures
      BuildPayload(lib, ManifestFor(t, branchType, lease), now, ttl, Some(nonce), nonce).Success?
      <==> LeaseFits(lib, lease, branchType, t.sha, t.branch)
  {
    ManifestPasses(lib, t, now, ttl, branchType, lease);
    PassedManifestIsBuiltIff(lib, ManifestFor(t, branchType, lease), now, ttl, Some(nonce), nonce);
    IsolationHoldsIff(lib, lease, branchType, t.sha, t.branch);
  }

  /** One strong lease is enough for a token in the dedicated mode, and none is needed for a preview branch. */
  lemma BothModesIssue(lib: Library, t: Target, now: int, ttl: int, nonce: string, lease: string)
    requires WellFormed(lib, t, now) && MIN_TTL <= ttl <= MAX_TTL && lib.strongLease(lease) && Ascii(t.branch)
    ensures
      var preview, dedicated :=
        ManifestFor(t, PREVIEW, Isolation(Str(PER_BRANCH), Absent, Absent, Absent)),
        ManifestFor(t, DEDICATED, Isolation(Str(EXCLUSIVE), Str(lease), Str(t.sha), Str(t.branch)));
      && BuildPayload(lib, preview, now, ttl, Some(nonce), nonce).Success?
      && BuildPayload(lib, dedicated, now, ttl, Some(nonce), nonce).Success?
  {
    ManifestIsBuiltIff(lib, t, now, ttl, nonce, PREVIEW, Isolation(Str(PER_BRANCH), Absent, Absent, Absent));
    ManifestIsBuiltIff(lib, t, now, ttl, nonce, DEDICATED, Isolation(Str(EXCLUSIVE), Str(lease), Str(t.sha), Str(t.branch)));
  }
}
