/** The compatibility preflight: every persisted page and every task of the domain against
    the declared version matrix. */
module Compatibility {
  import opened Wrappers
  import opened Sequences
  import opened Text
  import opened Orders

  datatype Version = Version(major: nat, minor: nat, patch: nat, pre: string, build: string)

  /** A declared version range: its text and the versions it admits. */
  datatype VersionReq = VersionReq(text: string, admits: Version -> bool)

  datatype Spec = Spec(domainPack: VersionReq, schema: VersionReq, prompt: VersionReq, artifact: set<string>)

  datatype Page = Page(pageId: string, domainPackVersion: string, artifactVersion: string, frontmatterJson: string)

  /** The task id is given by its decimal text. */
  datatype Task = Task(taskId: string, entityId: string, dependenciesJson: string)

  /** What parsing a frontmatter and looking for its quality policy finds. The artifact is
      absent when the policy has no such text. */
  datatype Frontmatter = Unparseable | NoPolicy | PolicyNotObject | Policy(artifact: Option<string>)

  datatype Snapshot = Snapshot(
    domainPackVersion: string, schemaVersion: Option<string>, promptVersion: Option<string>, artifactVersion: string)

  /** The parsers the check relies on. */
  datatype Parsers = Parsers(
    version: string -> Option<Version>, frontmatter: string -> Frontmatter, snapshot: string -> Option<Snapshot>)

  datatype Code = VersionMissing | VersionInvalid | VersionRange | ArtifactNotAllowed | CorruptSnapshot | CorruptFrontmatter

  datatype Violation = Violation(subject: string, code: Code, field: string, observed: string, expected: string)

  datatype Report = Report(compatible: bool, checkedPages: nat, checkedTasks: nat, violations: seq<Violation>)

  // ----- The fields -----

  function EntityDomain(entityId: string): string {
    var split := SplitOnce(entityId, ":");
    if split.Some? then split.value.0 else entityId
  }

  predicate SemverOk(p: Parsers, observed: string, req: VersionReq) {
    Trim(observed) != "" && p.version(Trim(observed)).Some? && req.admits(p.version(Trim(observed)).value)
  }

  predicate ArtifactOk(observed: string, allow: set<string>) {
    Trim(observed) != "" && Trim(observed) in allow
  }

  /** One version field; none of the three ways to fail overlaps another. */
  function CheckSemverField(
    p: Parsers, subject: string, field: string, observed: string, req: VersionReq): (r: Option<Violation>)
    ensures r.None? <==> SemverOk(p, observed, req)
    ensures r.Some? ==> r.value.subject == subject && r.value.field == field
    ensures r.Some? ==>
              && (r.value.code == VersionMissing <==> Trim(observed) == "")
              && (r.value.code == VersionInvalid <==> Trim(observed) != "" && p.version(Trim(observed)).None?)
              && r.value.code in {VersionMissing, VersionInvalid, VersionRange}
  {
    var trimmed := Trim(observed);
    if trimmed == "" then Some(Violation(subject, VersionMissing, field, "absent", req.text))
    else
      match p.version(trimmed)
      case None => Some(Violation(subject, VersionInvalid, field, trimmed, "strict semver"))
      case Some(v) => if req.admits(v) then None else Some(Violation(subject, VersionRange, field, trimmed, req.text))
  }

  function AllowlistText(allow: set<string>): string { "[" + Join(SortedStrings(allow), ",") + "]" }

  function CheckArtifactField(subject: string, field: string, observed: string, allow: set<string>): (r: Option<Violation>)
    ensures r.None? <==> ArtifactOk(observed, allow)
    ensures r.Some? ==> r.value.subject == subject && r.value.field == field
    ensures r.Some? ==> r.value.code == if Trim(observed) == "" then VersionMissing else ArtifactNotAllowed
  {
    var trimmed := Trim(observed);
    if trimmed == "" then Some(Violation(subject, VersionMissing, field, "absent", AllowlistText(allow)))
    else if trimmed !in allow then Some(Violation(subject, ArtifactNotAllowed, field, trimmed, AllowlistText(allow)))
    else None
  }

  /** A version field of a snapshot that may be absent altogether. */
  function CheckOptionalField(
    p: Parsers, subject: string, field: string, observed: Option<string>, req: VersionReq): (r: Option<Violation>)
    ensures r.None? <==> observed.Some? && SemverOk(p, observed.value, req)
    ensures r.Some? ==> r.value.subject == subject && r.value.field == field
  {
    match observed
    case None => Some(Violation(subject, VersionMissing, field, "absent", req.text))
    case Some(text) => CheckSemverField(p, subject, field, text, req)
  }

  // ----- Pages and tasks -----

  function Listed(v: Option<Violation>): seq<Violation> { if v.Some? then [v.value] else [] }

  function PageSubject(page: Page): string { "page:" + page.pageId }

  function TaskSubject(task: Task): string { "task:" + task.taskId }

  function FrontmatterViolations(p: Parsers, page: Page, spec: Spec): seq<Violation> {
    var subject := PageSubject(page);
    match p.frontmatter(page.frontmatterJson)
    case Unparseable => [Violation(subject, CorruptFrontmatter, "frontmatter_json", "unparseable", "JSON object")]
    case NoPolicy =>
      [Violation(subject, VersionMissing, "quality_policy.artifact_version", "absent", AllowlistText(spec.artifact))]
    case PolicyNotObject => [Violation(subject, CorruptFrontmatter, "quality_policy", "not an object", "JSON object")]
    case Policy(artifact) =>
      Listed(CheckArtifactField(subject, "quality_policy.artifact_version",
                                if artifact.Some? then artifact.value else "", spec.artifact))
  }

  function PageViolations(p: Parsers, page: Page, spec: Spec): seq<Violation> {
    var subject := PageSubject(page);
    Listed(CheckSemverField(p, subject, "domain_pack_version", page.domainPackVersion, spec.domainPack))
    + Listed(CheckArtifactField(subject, "artifact_version", page.artifactVersion, spec.artifact))
    + FrontmatterViolations(p, page, spec)
  }

  function SnapshotViolations(p: Parsers, subject: string, deps: Snapshot, spec: Spec): seq<Violation> {
    Listed(CheckSemverField(p, subject, "domain_pack_version", deps.domainPackVersion, spec.domainPack))
    + Listed(CheckOptionalField(p, subject, "schema_version", deps.schemaVersion, spec.schema))
    + Listed(CheckOptionalField(p, subject, "prompt_version", deps.promptVersion, spec.prompt))
    + Listed(CheckArtifactField(subject, "artifact_version", deps.artifactVersion, spec.artifact))
  }

  function TaskViolations(p: Parsers, task: Task, spec: Spec): seq<Violation> {
    var subject := TaskSubject(task);
    match p.snapshot(task.dependenciesJson)
    case None =>
      [Violation(subject, CorruptSnapshot, "dependencies_json", "unparseable", "JSON object {context, policy, schema}")]
    case Some(deps) => SnapshotViolations(p, subject, deps, spec)
  }

  function OfPages(p: Parsers, spec: Spec): Page -> seq<Violation> { (page: Page) => PageViolations(p, page, spec) }

  function OfTasks(p: Parsers, spec: Spec): Task -> seq<Violation> { (task: Task) => TaskViolations(p, task, spec) }

  method EvaluatePageIdentities(p: Parsers, pages: seq<Page>, spec: Spec) returns (out: seq<Violation>)
    ensures out == Flatten(Map(OfPages(p, spec), pages))
  {
    out := [];
    for i := 0 to |pages|
      invariant out == Flatten(Map(OfPages(p, spec), pages[..i]))
    {
      TakeStep(pages, i);
      FlatMapPush(OfPages(p, spec), pages[..i], pages[i]);
      assert OfPages(p, spec)(pages[i]) == PageViolations(p, pages[i], spec);
      out := CheckPage(p, pages[i], spec, out);
    }
    TakeAll(pages);
  }

  /** The loop body: version, artifact, frontmatter, each pushed if violated. */
  method CheckPage(p: Parsers, page: Page, spec: Spec, before: seq<Violation>) returns (out: seq<Violation>)
    ensures out == before + PageViolations(p, page, spec)
  {
    var subject := PageSubject(page);
    var pack := Listed(CheckSemverField(p, subject, "domain_pack_version", page.domainPackVersion, spec.domainPack));
    var artifact := Listed(CheckArtifactField(subject, "artifact_version", page.artifactVersion, spec.artifact));
    var frontmatter := FrontmatterViolations(p, page, spec);
    AppendOneByOne(before, pack, artifact, frontmatter, []);
    out := before + pack;
    out := out + artifact;
    out := out + frontmatter;
  }

  method EvaluateTaskSnapshots(p: Parsers, tasks: seq<Task>, spec: Spec) returns (out: seq<Violation>)
    ensures out == Flatten(Map(OfTasks(p, spec), tasks))
  {
    out := [];
    for i := 0 to |tasks|
      invariant out == Flatten(Map(OfTasks(p, spec), tasks[..i]))
    {
      var task, subject := tasks[i], TaskSubject(tasks[i]);
      TakeStep(tasks, i);
      FlatMapPush(OfTasks(p, spec), tasks[..i], task);
      assert OfTasks(p, spec)(task) == TaskViolations(p, task, spec);
      var deps := p.snapshot(task.dependenciesJson);
      if deps.None? {
        out := out + [Violation(subject, CorruptSnapshot, "dependencies_json", "unparseable",
                                "JSON object {context, policy, schema}")];
        continue;
      }
      var context := deps.value;
      var pack := Listed(CheckSemverField(p, subject, "domain_pack_version", context.domainPackVersion, spec.domainPack));
      var schema := Listed(CheckOptionalField(p, subject, "schema_version", context.schemaVersion, spec.schema));
      var prompt := Listed(CheckOptionalField(p, subject, "prompt_version", context.promptVersion, spec.prompt));
      var artifact := Listed(CheckArtifactField(subject, "artifact_version", context.artifactVersion, spec.artifact));
      assert SnapshotViolations(p, subject, context, spec) == pack + schema + prompt + artifact;
      AppendOneByOne(out, pack, schema, prompt, artifact);
      out := out + pack;
      out := out + schema;
      out := out + prompt;
      out := out + artifact;
    }
    TakeAll(tasks);
  }

  lemma AppendOneByOne<T>(s: seq<T>, a: seq<T>, b: seq<T>, c: seq<T>, d: seq<T>)
    ensures s + a + b + c + d == s + (a + b + c + d)
  {
  }

  lemma FlatMapPush<T, U>(f: T -> seq<U>, s: seq<T>, x: T)
    ensures Flatten(Map(f, s + [x])) == Flatten(Map(f, s)) + f(x)
  {
    assert Map(f, s + [x]) == Map(f, s) + [f(x)];
    assert (Map(f, s) + [f(x)])[..|s|] == Map(f, s);
  }

  function InDomain(domain: string): Task -> bool { (t: Task) => EntityDomain(t.entityId) == domain }

  /** The full scan: the domain's pages, and the tasks whose entity key starts with the domain. */
  method Check(p: Parsers, domain: string, spec: Spec, pages: seq<Page>, allTasks: seq<Task>) returns (r: Report)
    ensures r == ReportOf(p, domain, spec, pages, allTasks)
  {
    var tasks := Filter(InDomain(domain), allTasks);
    var violations := EvaluatePageIdentities(p, pages, spec);
    var more := EvaluateTaskSnapshots(p, tasks, spec);
    violations := violations + more;
    return Report(violations == [], |pages|, |tasks|, violations);
  }

  function ReportOf(p: Parsers, domain: string, spec: Spec, pages: seq<Page>, allTasks: seq<Task>): Report {
    var tasks := Filter(InDomain(domain), allTasks);
    var violations := Flatten(Map(OfPages(p, spec), pages)) + Flatten(Map(OfTasks(p, spec), tasks));
    Report(violations == [], |pages|, |tasks|, violations)
  }

  /** Without a matrix there is nothing to check. */
  method CheckDomainCompatibility(
    p: Parsers, domain: string, spec: Option<Spec>, pages: seq<Page>, allTasks: seq<Task>) returns (r: Report)
    ensures r == if spec.Some? then ReportOf(p, domain, spec.value, pages, allTasks) else Report(true, 0, 0, [])
  {
    if spec.None? {
      return Report(true, 0, 0, []);
    }
    r := Check(p, domain, spec.value, pages, allTasks);
  }

  // ----- What the report means -----

  predicate PageOk(p: Parsers, page: Page, spec: Spec) {
    && SemverOk(p, page.domainPackVersion, spec.domainPack)
    && ArtifactOk(page.artifactVersion, spec.artifact)
    && var f := p.frontmatter(page.frontmatterJson);
       f.Policy? && f.artifact.Some? && ArtifactOk(f.artifact.value, spec.artifact)
  }

  predicate TaskOk(p: Parsers, task: Task, spec: Spec) {
    p.snapshot(task.dependenciesJson).Some? && SnapshotOk(p, p.snapshot(task.dependenciesJson).value, spec)
  }

  lemma FrontmatterMeaning(p: Parsers, page: Page, spec: Spec)
    ensures FrontmatterViolations(p, page, spec) == [] <==>
            var f := p.frontmatter(page.frontmatterJson);
            f.Policy? && f.artifact.Some? && ArtifactOk(f.artifact.value, spec.artifact)
    ensures forall v :: v in FrontmatterViolations(p, page, spec) ==> v.subject == PageSubject(page)
  {
    assert Trim("") == "";
  }

  lemma PageViolationsMeaning(p: Parsers, page: Page, spec: Spec)
    ensures PageViolations(p, page, spec) == [] <==> PageOk(p, page, spec)
    ensures forall v :: v in PageViolations(p, page, spec) ==> v.subject == PageSubject(page)
  {
    FrontmatterMeaning(p, page, spec);
  }

  predicate SnapshotOk(p: Parsers, deps: Snapshot, spec: Spec) {
    && SemverOk(p, deps.domainPackVersion, spec.domainPack)
    && deps.schemaVersion.Some? && SemverOk(p, deps.schemaVersion.value, spec.schema)
    && deps.promptVersion.Some? && SemverOk(p, deps.promptVersion.value, spec.prompt)
    && ArtifactOk(deps.artifactVersion, spec.artifact)
  }

  lemma SnapshotMeaning(p: Parsers, subject: string, deps: Snapshot, spec: Spec)
    ensures SnapshotViolations(p, subject, deps, spec) == [] <==> SnapshotOk(p, deps, spec)
    ensures forall v :: v in SnapshotViolations(p, subject, deps, spec) ==> v.subject == subject
  {
  }

  lemma TaskViolationsMeaning(p: Parsers, task: Task, spec: Spec)
    ensures TaskViolations(p, task, spec) == [] <==> TaskOk(p, task, spec)
    ensures forall v :: v in TaskViolations(p, task, spec) ==> v.subject == TaskSubject(task)
  {
    if p.snapshot(task.dependenciesJson).Some? {
      SnapshotMeaning(p, TaskSubject(task), p.snapshot(task.dependenciesJson).value, spec);
    }
  }

  lemma {:induction false} FlattenEmpty<T>(parts: seq<seq<T>>)
    ensures Flatten(parts) == [] <==> forall i :: 0 <= i < |parts| ==> parts[i] == []
  {
    if parts != [] {
      FlattenEmpty(parts[..|parts| - 1]);
      FrontLast(parts);
    }
  }

  /** Compatible means that every page and every task of the domain satisfies the matrix. */
  lemma CompatibleIff(p: Parsers, domain: string, spec: Spec, pages: seq<Page>, allTasks: seq<Task>)
    ensures ReportOf(p, domain, spec, pages, allTasks).compatible <==>
            && (forall page :: page in pages ==> PageOk(p, page, spec))
            && (forall task :: task in allTasks && EntityDomain(task.entityId) == domain ==> TaskOk(p, task, spec))
  {
    var tasks := Filter(InDomain(domain), allTasks);
    PagesClean(p, spec, pages);
    TasksClean(p, spec, tasks);
  }

  lemma PagesClean(p: Parsers, spec: Spec, pages: seq<Page>)
    ensures Flatten(Map(OfPages(p, spec), pages)) == [] <==> forall page :: page in pages ==> PageOk(p, page, spec)
  {
    FlattenEmpty(Map(OfPages(p, spec), pages));
    forall i | 0 <= i < |pages| ensures Map(OfPages(p, spec), pages)[i] == [] <==> PageOk(p, pages[i], spec) {
      PageViolationsMeaning(p, pages[i], spec);
    }
    assert forall i :: 0 <= i < |pages| ==> pages[i] in pages;
  }

  lemma TasksClean(p: Parsers, spec: Spec, tasks: seq<Task>)
    ensures Flatten(Map(OfTasks(p, spec), tasks)) == [] <==> forall task :: task in tasks ==> TaskOk(p, task, spec)
  {
    FlattenEmpty(Map(OfTasks(p, spec), tasks));
    forall i | 0 <= i < |tasks| ensures Map(OfTasks(p, spec), tasks)[i] == [] <==> TaskOk(p, tasks[i], spec) {
      TaskViolationsMeaning(p, tasks[i], spec);
    }
    assert forall i :: 0 <= i < |tasks| ==> tasks[i] in tasks;
  }

  /** Checking two lists of rows together is checking them one after the other. */
  lemma EvaluationDistributes<T, U>(f: T -> seq<U>, a: seq<T>, b: seq<T>)
    ensures Flatten(Map(f, a + b)) == Flatten(Map(f, a)) + Flatten(Map(f, b))
  {
    assert Map(f, a + b) == Map(f, a) + Map(f, b);
    FlattenAppend(Map(f, a), Map(f, b));
  }

  /** Tasks of other domains do not affect the report, wherever they stand. */
  lemma OtherDomainsAreIgnored(
    p: Parsers, domain: string, spec: Spec, pages: seq<Page>, a: seq<Task>, other: Task, b: seq<Task>)
    requires EntityDomain(other.entityId) != domain
    ensures ReportOf(p, domain, spec, pages, a + [other] + b) == ReportOf(p, domain, spec, pages, a + b)
  {
    FilterPush(InDomain(domain), a, other);
    FilterAppend(InDomain(domain), a + [other], b);
    FilterAppend(InDomain(domain), a, b);
  }

  /** The domain of an entity key is its first segment; a key whose domain holds a colon
      counts for the part before it. */
  lemma EntityDomainOfKey(domain: string, rest: string)
    ensures EntityDomain(domain + ":" + rest) == domain <==> ':' !in domain
  {
    var key := domain + ":" + rest;
    if ':' !in domain {
      forall i | 0 <= i < |domain| ensures !OccursAt(key, ":", i) {
        assert key[i] == domain[i] && ":"[0] == ':';
      }
      SplitOnceUnique(key, ":", domain, rest);
    } else {
      var i :| 0 <= i < |domain| && domain[i] == ':';
      assert OccursAt(key, ":", i);
      var split := SplitOnce(key, ":");
      assert split.Some? && |split.value.0| <= i;
    }
  }
}
