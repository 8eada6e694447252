/**
 The provider evidence token: the producer that turns a provider manifest into
 a signed payload and the consumer that checks it against its own environment.
 */
module EvidenceToken {
  import opened Wrappers
  import opened EvidenceCodec

  // ----- JSON values as the two sides read them -----

  /** Absent is a missing key, which a lookup reads as null but a membership test tells apart. */
  datatype Json = Absent | Null | Bool(flag: bool) | Int(number: int) | Str(text: string) | List(items: seq<Json>)

  datatype Generator = Generator(kind: Json, workflowRunId: Json, sources: Json, workflowPath: Json,
                                 githubEnvironment: Json, eventName: Json, actorId: Json, repository: Json, gitBranch: Json)

  datatype Database = Database(
    provider: Json, evidenceSource: Json, branchType: Json, projectRef: Json, branchRef: Json, productionBranchRef: Json,
    withData: Json, userDistinct: Json, endpointDistinct: Json, passwordDistinct: Json, jwtDistinct: Json,
    fingerprintMethod: Json, fingerprintVersion: Json, fingerprint: Json, productionFingerprint: Json, lease: Isolation)

  datatype Backend = Backend(provider: Json, evidenceSource: Json, environment: Json, codeSha: Json, gitBranch: Json,
                             serviceId: Json, productionServiceId: Json, deploymentId: Json)

  datatype Frontend = Frontend(provider: Json, evidenceSource: Json, environment: Json, codeSha: Json, gitBranch: Json,
                               deploymentId: Json, projectId: Json, teamId: Json)

  datatype Configuration = Configuration(evidenceSource: Json, secretsScope: Json, bootstrapFingerprint: Json,
                                         bootstrapVersion: Json, environmentId: Json, productionEnvironmentId: Json)

  /** The isolation fields, which manifest and payload share. */
  datatype Isolation = Isolation(mode: Json, leaseId: Json, leaseSha: Json, leaseBranch: Json)

  /** A section that is not an object is None. */
  datatype Manifest = Manifest(
    schemaVersion: Json, evidenceType: Json, generatedBy: Option<Generator>, generatedAt: Json, codeSha: Json,
    database: Option<Database>, backend: Option<Backend>, frontend: Option<Frontend>, configuration: Option<Configuration>)

  datatype Payload = Payload(
    tokenVersion: Json, algorithm: Json, schemaVersion: Json, evidenceType: Json, provider: Json, codeSha: Json,
    gitBranch: Json, workflowRunId: Json, repository: Json, serviceId: Json, environmentId: Json, renderDeploymentId: Json,
    frontendDeploymentId: Json, frontendProjectId: Json, frontendTeamId: Json, projectRef: Json, branchType: Json,
    branchRef: Json, userDistinct: Json, endpointDistinct: Json, passwordDistinct: Json, jwtDistinct: Json,
    fingerprintMethod: Json, fingerprintVersion: Json, fingerprint: Json, productionFingerprint: Json,
    bootstrapFingerprint: Json, bootstrapVersion: Json, manifestHash: Json, issuedAt: Json, expiresAt: Json, nonce: Json,
    lease: Isolation)

  datatype Parsed = NotJson | NotObject | Object(payload: Payload)

  // ----- constants -----

  const EVIDENCE_TYPE := "provider-verified-isolated-preview"
  const TOKEN_VERSION := "provider-evidence-ed25519-v2"
  const ALGORITHM := "ed25519"
  const PROVIDERS := "render+supabase+vercel"
  const VERIFIER := "provider-api-verifier"
  const RENDER_API := "render-api"
  const SUPABASE_API := "supabase-management-api"
  const VERCEL_API := "vercel-api"
  const WORKFLOW := ".github/workflows/verify-preview-providers.yml"
  const PREVIEW_QA := "preview-qa"
  const DISPATCH := "workflow_dispatch"
  const SUPABASE := "supabase"
  const RENDER := "render"
  const VERCEL := "vercel"
  const PREVIEW := "preview"
  const DEDICATED := "dedicated-qa-project"
  const PREVIEW_SERVICE := "preview-service"
  const PER_BRANCH := "supabase-branch-per-target"
  const EXCLUSIVE := "dedicated-qa-baseline-exclusive"
  const SHA256 := "sha256"
  const CONNECTION_V1 := "supabase-connection-v1"
  const PRODUCTION_REF := "ezkljznogqpmrjxyvklr"
  const POSTGRES := "postgres"
  const BOOTSTRAP_VERSION := "qa-bootstrap-config-v2"
  const MAX_TTL := 3600
  const MIN_TTL := 60

  // ----- text -----

  predicate Ascii(s: string) {
    forall i | 0 <= i < |s| :: s[i] as int < 128
  }

  predicate LowerHex(s: string) {
    forall i | 0 <= i < |s| :: '0' <= s[i] <= '9' || 'a' <= s[i] <= 'f'
  }

  predicate Digits(s: string) {
    s != "" && forall i | 0 <= i < |s| :: '0' <= s[i] <= '9'
  }

  predicate IsSha(s: string) {
    (|s| == 40 || |s| == 64) && LowerHex(s)
  }

  predicate IsFingerprint(s: string) {
    |s| == 71 && s[..7] == "sha256:" && LowerHex(s[7..])
  }

  predicate IsNonce(s: string) {
    32 <= |s| <= 128 && LowerHex(s)
  }

  predicate ProtectedBranch(s: string) {
    s == "main" || s == "master" || s == "production"
  }

  /** Constant-time comparison refuses text outside ASCII. */
  predicate DigestsMatch(a: string, b: string) {
    Ascii(a) && Ascii(b) && a == b
  }

  predicate Contains(s: string, part: string) {
    exists i | 0 <= i <= |s| :: part <= s[i..]
  }

  // ----- what the libraries do -----

  /**
   `text` is str() of a truthy value that is not a string, `isoEpoch` parses a
   timestamp that carries a timezone, `strongLease` is the entropy test on a
   lease id, `fingerprint` hashes a project ref and a connection identity (None
   for a host that has no ASCII form), `sign` and `verify` use one key pair.
   */
  datatype Library = Library(
    text: Json -> string, isoEpoch: string -> Option<int>, strongLease: string -> bool, manifestHash: Manifest -> string,
    fingerprint: (string, Identity) -> Option<string>, trim: string -> string, rolePattern: string -> bool,
    render: Payload -> seq<Byte>, parse: seq<Byte> -> Parsed,
    sign: string -> seq<Byte>, verify: (seq<Byte>, string) -> bool)

  datatype Identity = Identity(host: string, port: int, database: string, username: string)

  /** str(value or "") */
  function Text(lib: Library, j: Json): string {
    match j
    case Absent => ""
    case Null => ""
    case Bool(b) => if b then lib.text(j) else ""
    case Int(n) => if n != 0 then lib.text(j) else ""
    case Str(s) => s
    case List(items) => if items != [] then lib.text(j) else ""
  }

  // ----- refusals -----

  datatype Refusal =
    | SchemaVersion | EvidenceType | GeneratorKind | WorkflowRun | Sources | Provenance | Timestamp | Stale | Sections
    | DatabaseEvidence | BackendEvidence | FrontendEvidence | ConfigurationEvidence | BootstrapBinding | BranchIdentity
    | ProductionRef | FingerprintMethod | FingerprintVersion | DatabaseIsolation | ConnectionFingerprint
    | ProductionFingerprint | ProductionConnection | CodeSha | BackendSha | BackendBranch | RenderService | RenderIdentity
    | VercelProvenance | Ttl | IsolationContract | BaselineContract | LeaseId | LeaseTarget
    | TokenFormat | TokenSignature | TokenPayload | TokenVersion | Algorithm | Provider | ManifestHash | Nonce
    | BootstrapMismatch | IssuedAt | ExpiresAt | Expired | TargetIdentity | DatabaseRole | FingerprintMismatch | Service

  datatype Contract = Contract(mode: string, leaseId: Option<string>, leaseSha: Option<string>, leaseBranch: Option<string>)

  function ValidateIsolation(lib: Library, i: Isolation, branchType: string, codeSha: string, gitBranch: string)
    : Result<Contract, Refusal>
  {
    var mode := Text(lib, i.mode);
    if branchType == PREVIEW then
      if mode != PER_BRANCH || !i.leaseId.Absent? || !i.leaseSha.Absent? || !i.leaseBranch.Absent? then Failure(IsolationContract)
      else Success(Contract(mode, None, None, None))
    else if branchType != DEDICATED || mode != EXCLUSIVE then Failure(BaselineContract)
    else if !i.leaseId.Str? || !lib.strongLease(i.leaseId.text) then Failure(LeaseId)
    else
      var sha, branch := Text(lib, i.leaseSha), Text(lib, i.leaseBranch);
      if !DigestsMatch(sha, codeSha) || !DigestsMatch(branch, gitBranch) then Failure(LeaseTarget)
      else Success(Contract(mode, Some(i.leaseId.text), Some(sha), Some(branch)))
  }

  /** The isolation fields a payload carries: lease fields only in the dedicated mode. */
  function IsolationFields(c: Contract): Isolation {
    if c.leaseId.None? then Isolation(Str(c.mode), Absent, Absent, Absent)
    else Isolation(Str(c.mode), Str(c.leaseId.value), Field(c.leaseSha), Field(c.leaseBranch))
  }

  function Field(o: Option<string>): Json {
    if o.None? then Null else Str(o.value)
  }

  // ----- the producer -----

  function Then(first: Option<Refusal>, second: Option<Refusal>): Option<Refusal> {
    if first.Some? then first else second
  }

  function Refuse(bad: bool, r: Refusal): Option<Refusal> {
    if bad then Some(r) else None
  }

  predicate AllSources(j: Json) {
    && j.List? && |j.items| == 3
    && (forall i | 0 <= i < 3 :: j.items[i].Str?)
    && Str(RENDER_API) in j.items && Str(SUPABASE_API) in j.items && Str(VERCEL_API) in j.items
  }

  function CheckGenerator(lib: Library, m: Manifest): Option<Refusal> {
    if !(m.schemaVersion == Int(2) || m.schemaVersion == Int(3)) then Some(SchemaVersion)
    else if m.evidenceType != Str(EVIDENCE_TYPE) then Some(EvidenceType)
    else if m.generatedBy.None? || m.generatedBy.value.kind != Str(VERIFIER) then Some(GeneratorKind)
    else
      var g := m.generatedBy.value;
      if !g.workflowRunId.Int? || g.workflowRunId.number <= 0 then Some(WorkflowRun)
      else if !AllSources(g.sources) then Some(Sources)
      else if g.workflowPath != Str(WORKFLOW) || g.githubEnvironment != Str(PREVIEW_QA) || g.eventName != Str(DISPATCH)
      then Some(Provenance)
      else
        Refuse(!Digits(Text(lib, g.actorId)) || '/' !in Text(lib, g.repository)
               || Text(lib, g.gitBranch) == "" || ProtectedBranch(Text(lib, g.gitBranch)), Provenance)
  }

  function CheckTimestamp(lib: Library, m: Manifest, now: int): Option<Refusal> {
    if !m.generatedAt.Str? || lib.isoEpoch(m.generatedAt.text).None? then Some(Timestamp)
    else
      var epoch := lib.isoEpoch(m.generatedAt.text).value;
      Refuse(epoch > now + 60 || now - epoch > MAX_TTL, Stale)
  }

  function CheckSections(lib: Library, m: Manifest): Option<Refusal> {
    if m.database.None? || m.backend.None? || m.frontend.None? || m.configuration.None? then Some(Sections)
    else
      var d, b, f, c := m.database.value, m.backend.value, m.frontend.value, m.configuration.value;
      Then(Refuse(d.provider != Str(SUPABASE) || d.evidenceSource != Str(SUPABASE_API)
                  || !(d.branchType == Str(PREVIEW) || d.branchType == Str(DEDICATED)), DatabaseEvidence),
      Then(Refuse(b.provider != Str(RENDER) || b.evidenceSource != Str(RENDER_API) || b.environment != Str(PREVIEW),
                  BackendEvidence),
      Then(Refuse(f.provider != Str(VERCEL) || f.evidenceSource != Str(VERCEL_API) || f.environment != Str(PREVIEW),
                  FrontendEvidence),
      Then(Refuse(c.evidenceSource != Str(RENDER_API) || c.secretsScope != Str(PREVIEW_SERVICE), ConfigurationEvidence),
           Refuse(!IsFingerprint(Text(lib, c.bootstrapFingerprint)) || c.bootstrapVersion != Str(BOOTSTRAP_VERSION),
                  BootstrapBinding)))))
  }

  function CheckDatabase(lib: Library, d: Database): Option<Refusal> {
    var project, branch := Lower(Text(lib, d.projectRef)), Lower(Text(lib, d.branchRef));
    var production := Lower(Text(lib, d.productionBranchRef));
    var mine, theirs := Text(lib, d.fingerprint), Text(lib, d.productionFingerprint);
    Then(Refuse(project == "" || branch == "" || production == "" || project != branch || project == production
                || branch == production || d.withData != Bool(false) || !d.userDistinct.Bool?, BranchIdentity),
    Then(Refuse(project == PRODUCTION_REF, ProductionRef),
    Then(Refuse(d.fingerprintMethod != Str(SHA256), FingerprintMethod),
    Then(Refuse(d.fingerprintVersion != Str(CONNECTION_V1), FingerprintVersion),
    Then(Refuse(d.endpointDistinct != Bool(true) || d.passwordDistinct != Bool(true) || d.jwtDistinct != Bool(true),
                DatabaseIsolation),
    Then(Refuse(!IsFingerprint(mine), ConnectionFingerprint),
    Then(Refuse(!IsFingerprint(theirs), ProductionFingerprint),
         Refuse(mine == theirs, ProductionConnection))))))))
  }

  function CheckDeployments(lib: Library, m: Manifest, b: Backend, f: Frontend, c: Configuration, gitBranch: string)
    : Option<Refusal>
  {
    var codeSha := Lower(Text(lib, m.codeSha));
    var service, productionService := Text(lib, b.serviceId), Text(lib, b.productionServiceId);
    var environment, productionEnvironment := Text(lib, c.environmentId), Text(lib, c.productionEnvironmentId);
    Then(Refuse(!IsSha(codeSha), CodeSha),
    Then(Refuse(b.codeSha != Str(codeSha), BackendSha),
    Then(Refuse(b.gitBranch != Str(gitBranch), BackendBranch),
    Then(Refuse(service == "" || productionService == "" || service == productionService, RenderService),
    Then(Refuse(environment == "" || productionEnvironment == "" || environment == productionEnvironment, RenderIdentity),
         Refuse(Text(lib, b.deploymentId) == "" || Text(lib, f.deploymentId) == "" || Text(lib, f.projectId) == ""
                || Text(lib, f.teamId) == "" || f.codeSha != Str(codeSha) || f.gitBranch != Str(gitBranch),
                VercelProvenance))))))
  }

  function CheckManifest(lib: Library, m: Manifest, now: int, ttl: int): Option<Refusal> {
    if CheckGenerator(lib, m).Some? then CheckGenerator(lib, m)
    else if CheckTimestamp(lib, m, now).Some? then CheckTimestamp(lib, m, now)
    else if CheckSections(lib, m).Some? then CheckSections(lib, m)
    else if m.generatedBy.None? || m.database.None? || m.backend.None? || m.frontend.None? || m.configuration.None?
    then Some(Sections)
    else
      Then(CheckDatabase(lib, m.database.value),
      Then(CheckDeployments(lib, m, m.backend.value, m.frontend.value, m.configuration.value,
                            Text(lib, m.generatedBy.value.gitBranch)),
           Refuse(!(MIN_TTL <= ttl <= MAX_TTL), Ttl)))
  }

  /** `random` is the nonce that is generated when the caller gives none. */
  function BuildPayload(lib: Library, m: Manifest, now: int, ttl: int, nonce: Option<string>, random: string)
    : Result<Payload, Refusal>
  {
    if CheckManifest(lib, m, now, ttl).Some? then Failure(CheckManifest(lib, m, now, ttl).value)
    else if m.generatedBy.None? || m.database.None? || m.backend.None? || m.frontend.None? || m.configuration.None?
    then Failure(Sections)
    else
      var g, d, b, f, c :=
        m.generatedBy.value, m.database.value, m.backend.value, m.frontend.value, m.configuration.value;
      var codeSha, gitBranch, branchType := Lower(Text(lib, m.codeSha)), Text(lib, g.gitBranch), Text(lib, d.branchType);
      match ValidateIsolation(lib, d.lease, branchType, codeSha, gitBranch)
      case Failure(r) => Failure(r)
      case Success(contract) =>
        Success(Payload(
          Str(TOKEN_VERSION), Str(ALGORITHM), m.schemaVersion, Str(EVIDENCE_TYPE), Str(PROVIDERS), Str(codeSha),
          Str(gitBranch), g.workflowRunId, Str(Text(lib, g.repository)), Str(Text(lib, b.serviceId)),
          Str(Text(lib, c.environmentId)), Str(Text(lib, b.deploymentId)),
          Str(Text(lib, f.deploymentId)), Str(Text(lib, f.projectId)), Str(Text(lib, f.teamId)),
          Str(Lower(Text(lib, d.projectRef))), Str(branchType), Str(Lower(Text(lib, d.branchRef))),
          d.userDistinct, Bool(true), Bool(true), Bool(true), Str(SHA256), Str(CONNECTION_V1),
          Str(Text(lib, d.fingerprint)), Str(Text(lib, d.productionFingerprint)),
          Str(Text(lib, c.bootstrapFingerprint)), Str(BOOTSTRAP_VERSION), Str(lib.manifestHash(m)),
          Int(now), Int(now + ttl), Str(if nonce.Some? && nonce.value != "" then nonce.value else random),
          IsolationFields(contract)))
  }

  // ----- the consumer -----

  /** What the consumer knows by itself; None for a database URL or bootstrap environment it cannot use. */
  datatype Environment = Environment(identity: Option<Identity>, serviceId: string, codeSha: string,
                                     bootstrap: Option<string>, now: int)

  datatype Evidence = Evidence(
    schemaVersion: int, codeSha: string, serviceId: string, environmentId: string, frontendDeploymentId: string,
    projectRef: string, branchType: string, branchRef: string, databaseRole: string, fingerprint: string,
    productionFingerprint: string, contract: Contract)

  function TargetText(lib: Library, i: Identity): string {
    Lower(i.host + "|" + lib.text(Int(i.port)) + "|" + i.database + "|" + i.username)
  }

  predicate RoleAllowed(lib: Library, role: string, distinct: bool) {
    var normalized := Lower(lib.trim(role));
    && lib.rolePattern(normalized)
    && (normalized == POSTGRES
        || (distinct && (Contains(normalized, "qa") || Contains(normalized, "preview")
                         || Contains(normalized, "test") || Contains(normalized, "e2e"))))
  }

  function CheckHeader(lib: Library, p: Payload): Option<Refusal> {
    Then(Refuse(p.tokenVersion != Str(TOKEN_VERSION), TokenVersion),
    Then(Refuse(p.algorithm != Str(ALGORITHM), Algorithm),
    Then(Refuse(!(p.schemaVersion == Int(2) || p.schemaVersion == Int(3)), SchemaVersion),
    Then(Refuse(p.evidenceType != Str(EVIDENCE_TYPE), EvidenceType),
    Then(Refuse(p.provider != Str(PROVIDERS), Provider),
    Then(Refuse(!IsFingerprint(Text(lib, p.manifestHash)), ManifestHash),
         Refuse(!IsNonce(Text(lib, p.nonce)), Nonce)))))))
  }

  function CheckBootstrap(lib: Library, p: Payload, env: Environment): Option<Refusal> {
    var bound := Text(lib, p.bootstrapFingerprint);
    Then(Refuse(p.bootstrapVersion != Str(BOOTSTRAP_VERSION), BootstrapBinding),
    Then(Refuse(!IsFingerprint(bound), BootstrapBinding),
         Refuse(env.bootstrap.None? || !DigestsMatch(bound, env.bootstrap.value), BootstrapMismatch)))
  }

  function CheckWindow(p: Payload, now: int): Option<Refusal> {
    if !p.issuedAt.Int? then Some(IssuedAt)
    else if !p.expiresAt.Int? then Some(ExpiresAt)
    else
      var issued, expires := p.issuedAt.number, p.expiresAt.number;
      Then(Refuse(!(MIN_TTL <= expires - issued <= MAX_TTL), Ttl),
           Refuse(issued > now + 30 || expires < now, Expired))
  }

  function CheckTarget(lib: Library, p: Payload, i: Identity): Option<Refusal> {
    var project, branchType, role := Lower(Text(lib, p.projectRef)), Text(lib, p.branchType), Lower(i.username);
    if project == "" || !(branchType == PREVIEW || branchType == DEDICATED) || !p.userDistinct.Bool? then Some(TargetIdentity)
    else
      Then(Refuse(Contains(TargetText(lib, i), PRODUCTION_REF) || project == PRODUCTION_REF, ProductionRef),
      Then(Refuse(!RoleAllowed(lib, role, p.userDistinct.flag) || !Ascii(role), DatabaseRole),
      Then(Refuse(Lower(Text(lib, p.branchRef)) == "" || Lower(Text(lib, p.branchRef)) != project, BranchIdentity),
      Then(Refuse(p.fingerprintMethod != Str(SHA256), FingerprintMethod),
           Refuse(p.fingerprintVersion != Str(CONNECTION_V1), FingerprintVersion)))))
  }

  function CheckConnection(lib: Library, p: Payload, i: Identity): Option<Refusal> {
    var mine, theirs := Text(lib, p.fingerprint), Text(lib, p.productionFingerprint);
    var actual := lib.fingerprint(Lower(Text(lib, p.projectRef)), i);
    Then(Refuse(i.database != POSTGRES || actual.None?, TargetIdentity),
    Then(Refuse(!IsFingerprint(mine), ConnectionFingerprint),
    Then(Refuse(actual.None? || !DigestsMatch(mine, actual.value), FingerprintMismatch),
    Then(Refuse(!IsFingerprint(theirs), ProductionFingerprint),
         Refuse(mine == theirs, ProductionConnection)))))
  }

  function CheckOrigin(lib: Library, p: Payload, env: Environment): Option<Refusal> {
    var sha, service, branch := Lower(Text(lib, p.codeSha)), Text(lib, p.serviceId), Text(lib, p.gitBranch);
    Then(Refuse(!IsSha(sha) || !DigestsMatch(sha, Lower(env.codeSha)), CodeSha),
    Then(Refuse(service == "" || !DigestsMatch(service, env.serviceId), Service),
         Refuse(branch == "" || ProtectedBranch(branch) || !p.workflowRunId.Int? || p.workflowRunId.number <= 0
                || '/' !in Text(lib, p.repository), Provenance)))
  }

  function CheckIdentifiers(lib: Library, p: Payload): Option<Refusal> {
    Then(Refuse(Text(lib, p.environmentId) == "" || Text(lib, p.renderDeploymentId) == "", RenderIdentity),
    Then(Refuse(Text(lib, p.frontendDeploymentId) == "" || Text(lib, p.frontendProjectId) == ""
                || Text(lib, p.frontendTeamId) == "", VercelProvenance),
         Refuse(p.endpointDistinct != Bool(true) || p.passwordDistinct != Bool(true) || p.jwtDistinct != Bool(true),
                DatabaseIsolation)))
  }

  function CheckPayload(lib: Library, p: Payload, env: Environment): Option<Refusal> {
    var early := Then(CheckHeader(lib, p), Then(CheckBootstrap(lib, p, env), CheckWindow(p, env.now)));
    if early.Some? then early
    else if env.identity.None? then Some(TargetIdentity)
    else
      Then(CheckTarget(lib, p, env.identity.value),
      Then(CheckConnection(lib, p, env.identity.value), CheckOrigin(lib, p, env)))
  }

  function VerifyPayload(lib: Library, p: Payload, env: Environment): Result<Evidence, Refusal> {
    if CheckPayload(lib, p, env).Some? then Failure(CheckPayload(lib, p, env).value)
    else if env.identity.None? || !p.schemaVersion.Int? then Failure(TargetIdentity)
    else
      var sha, branchType := Lower(Text(lib, p.codeSha)), Text(lib, p.branchType);
      match ValidateIsolation(lib, p.lease, branchType, sha, Text(lib, p.gitBranch))
      case Failure(r) => Failure(r)
      case Success(contract) =>
        if CheckIdentifiers(lib, p).Some? then Failure(CheckIdentifiers(lib, p).value)
        else
          Success(Evidence(
            p.schemaVersion.number, sha, Text(lib, p.serviceId), Text(lib, p.environmentId),
            Text(lib, p.frontendDeploymentId), Lower(Text(lib, p.projectRef)), branchType, Lower(Text(lib, p.branchRef)),
            Lower(env.identity.value.username), Text(lib, p.fingerprint), Text(lib, p.productionFingerprint), contract))
  }

  // ----- the token -----

  function IssueToken(lib: Library, p: Payload): string {
    var body := EncodeSegment(lib.render(p));
    body + "." + EncodeSegment(lib.sign(body))
  }

  /** The position of the first dot, or the length. */
  function FirstDot(s: string): (i: nat)
    ensures i <= |s| && '.' !in s[..i] && (i < |s| ==> s[i] == '.')
  {
    if s == "" then 0
    else if s[0] == '.' then 0
    else
      var i := 1 + FirstDot(s[1..]);
      assert s[..i] == [s[0]] + s[1..][..i - 1];
      i
  }

  lemma {:induction false} FirstDotSplits(left: string, right: string)
    requires '.' !in left
    ensures FirstDot(left + "." + right) == |left|
  {
    var s := left + "." + right;
    if left == "" {
      assert s[0] == '.';
    } else {
      assert s[0] == left[0] && left[0] in left;
      assert s[1..] == left[1..] + "." + right;
      FirstDotSplits(left[1..], right);
    }
  }

  function VerifyToken(lib: Library, token: string, env: Environment): Result<Evidence, Refusal> {
    var dot := FirstDot(token);
    if dot == |token| || '.' in token[dot + 1..] then Failure(TokenFormat)
    else
      var body, signature := token[..dot], DecodeSegment(token[dot + 1..]);
      if signature.Failure? then Failure(TokenSignature)
      else if !Ascii(body) then Failure(TokenPayload)
      else if !lib.verify(signature.value, body) then Failure(TokenSignature)
      else
        match DecodeSegment(body)
        case Failure(_) => Failure(TokenPayload)
        case Success(bytes) =>
          match lib.parse(bytes)
          case NotJson => Failure(TokenPayload)
          case NotObject => Failure(TokenPayload)
          case Object(p) => VerifyPayload(lib, p, env)
  }
}
