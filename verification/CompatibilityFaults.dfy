/** Which violations a compatibility report lists, each with its subject, code, field and
    texts, and how many rows it has checked. */
module CompatibilityFaults {
  import opened Wrappers
  import opened Sequences
  import opened Text
  import opened Orders
  import opened Compatibility

  // ----- One field -----

  /** A version text is blank, no version, or a version that the matrix does not admit. */
  predicate VersionFault(p: Parsers, v: Violation, observed: string, req: VersionReq) {
    var text := Trim(observed);
    || (text == "" && v.code == VersionMissing && v.observed == "absent" && v.expected == req.text)
    || (text != "" && p.version(text).None? && v.code == VersionInvalid && v.observed == text && v.expected == "strict semver")
    || (text != "" && p.version(text).Some? && !req.admits(p.version(text).value) && v.code == VersionRange
        && v.observed == text && v.expected == req.text)
  }

  /** An artifact text is blank or not on the list. */
  predicate ArtifactFault(v: Violation, observed: string, allow: set<string>) {
    var text := Trim(observed);
    && v.expected == AllowlistText(allow)
    && ((text == "" && v.code == VersionMissing && v.observed == "absent")
        || (text != "" && text !in allow && v.code == ArtifactNotAllowed && v.observed == text))
  }

  lemma VersionFaultIs(p: Parsers, v: Violation, subject: string, field: string, observed: string, req: VersionReq)
    ensures CheckSemverField(p, subject, field, observed, req) == Some(v) <==>
            v.subject == subject && v.field == field && VersionFault(p, v, observed, req)
  {
  }

  lemma ArtifactFaultIs(v: Violation, subject: string, field: string, observed: string, allow: set<string>)
    ensures CheckArtifactField(subject, field, observed, allow) == Some(v) <==>
            v.subject == subject && v.field == field && ArtifactFault(v, observed, allow)
  {
  }

  /** The list is printed in ascending order between brackets. */
  lemma AllowlistShape(allow: set<string>) returns (items: seq<string>)
    ensures Ascending(StringLt, items) && Lists(items, allow) && AllowlistText(allow) == "[" + Join(items, ",") + "]"
  {
    items := SortedStrings(allow);
    SortedStringsAscend(allow);
  }

  lemma ListedHolds(v: Violation, r: Option<Violation>)
    ensures v in Listed(r) <==> r == Some(v)
  {
  }

  // ----- Pages and tasks -----

  /** What may be wrong with the frontmatter of a page. */
  predicate FrontmatterFault(p: Parsers, page: Page, spec: Spec, v: Violation) {
    match p.frontmatter(page.frontmatterJson)
    case Unparseable =>
      v.field == "frontmatter_json" && v.code == CorruptFrontmatter && v.observed == "unparseable"
      && v.expected == "JSON object"
    case NoPolicy =>
      v.field == "quality_policy.artifact_version" && v.code == VersionMissing && v.observed == "absent"
      && v.expected == AllowlistText(spec.artifact)
    case PolicyNotObject =>
      v.field == "quality_policy" && v.code == CorruptFrontmatter && v.observed == "not an object"
      && v.expected == "JSON object"
    case Policy(artifact) =>
      v.field == "quality_policy.artifact_version"
      && ArtifactFault(v, if artifact.Some? then artifact.value else "", spec.artifact)
  }

  /** What may be wrong with a page. */
  predicate PageFault(p: Parsers, page: Page, spec: Spec, v: Violation) {
    && v.subject == "page:" + page.pageId
    && (|| (v.field == "domain_pack_version" && VersionFault(p, v, page.domainPackVersion, spec.domainPack))
        || (v.field == "artifact_version" && ArtifactFault(v, page.artifactVersion, spec.artifact))
        || FrontmatterFault(p, page, spec, v))
  }

  lemma FrontmatterFaultIs(p: Parsers, page: Page, spec: Spec, v: Violation)
    ensures v in FrontmatterViolations(p, page, spec) <==>
            v.subject == "page:" + page.pageId && FrontmatterFault(p, page, spec, v)
  {
    var f := p.frontmatter(page.frontmatterJson);
    if f.Policy? {
      var text, field := if f.artifact.Some? then f.artifact.value else "", "quality_policy.artifact_version";
      ArtifactFaultIs(v, PageSubject(page), field, text, spec.artifact);
      ListedHolds(v, CheckArtifactField(PageSubject(page), field, text, spec.artifact));
    }
  }

  /** A page is reported for exactly what is wrong with it. */
  lemma PageFaultsAre(p: Parsers, page: Page, spec: Spec, v: Violation)
    ensures v in PageViolations(p, page, spec) <==> PageFault(p, page, spec, v)
  {
    var subject := PageSubject(page);
    VersionFaultIs(p, v, subject, "domain_pack_version", page.domainPackVersion, spec.domainPack);
    ArtifactFaultIs(v, subject, "artifact_version", page.artifactVersion, spec.artifact);
    FrontmatterFaultIs(p, page, spec, v);
    ListedHolds(v, CheckSemverField(p, subject, "domain_pack_version", page.domainPackVersion, spec.domainPack));
    ListedHolds(v, CheckArtifactField(subject, "artifact_version", page.artifactVersion, spec.artifact));
  }

  /** A version that a snapshot may lack altogether. */
  predicate OptionalFault(p: Parsers, v: Violation, observed: Option<string>, req: VersionReq) {
    if observed.None? then v.code == VersionMissing && v.observed == "absent" && v.expected == req.text
    else VersionFault(p, v, observed.value, req)
  }

  /** What may be wrong with the snapshot of a task. */
  predicate SnapshotFault(p: Parsers, deps: Snapshot, spec: Spec, v: Violation) {
    || (v.field == "domain_pack_version" && VersionFault(p, v, deps.domainPackVersion, spec.domainPack))
    || (v.field == "schema_version" && OptionalFault(p, v, deps.schemaVersion, spec.schema))
    || (v.field == "prompt_version" && OptionalFault(p, v, deps.promptVersion, spec.prompt))
    || (v.field == "artifact_version" && ArtifactFault(v, deps.artifactVersion, spec.artifact))
  }

  /** What may be wrong with a task. */
  predicate TaskFault(p: Parsers, task: Task, spec: Spec, v: Violation) {
    && v.subject == "task:" + task.taskId
    && match p.snapshot(task.dependenciesJson)
       case None =>
         v.field == "dependencies_json" && v.code == CorruptSnapshot && v.observed == "unparseable"
         && v.expected == "JSON object {context, policy, schema}"
       case Some(deps) => SnapshotFault(p, deps, spec, v)
  }

  lemma OptionalFaultIs(p: Parsers, v: Violation, subject: string, field: string, observed: Option<string>, req: VersionReq)
    ensures v in Listed(CheckOptionalField(p, subject, field, observed, req)) <==>
            v.subject == subject && v.field == field && OptionalFault(p, v, observed, req)
  {
    if observed.Some? {
      VersionFaultIs(p, v, subject, field, observed.value, req);
    }
    ListedHolds(v, CheckOptionalField(p, subject, field, observed, req));
  }

  lemma SnapshotFaultsAre(p: Parsers, subject: string, deps: Snapshot, spec: Spec, v: Violation)
    ensures v in SnapshotViolations(p, subject, deps, spec) <==> v.subject == subject && SnapshotFault(p, deps, spec, v)
  {
    VersionFaultIs(p, v, subject, "domain_pack_version", deps.domainPackVersion, spec.domainPack);
    OptionalFaultIs(p, v, subject, "schema_version", deps.schemaVersion, spec.schema);
    OptionalFaultIs(p, v, subject, "prompt_version", deps.promptVersion, spec.prompt);
    ArtifactFaultIs(v, subject, "artifact_version", deps.artifactVersion, spec.artifact);
    ListedHolds(v, CheckSemverField(p, subject, "domain_pack_version", deps.domainPackVersion, spec.domainPack));
    ListedHolds(v, CheckArtifactField(subject, "artifact_version", deps.artifactVersion, spec.artifact));
  }

  /** A task is reported for exactly what is wrong with it. */
  lemma TaskFaultsAre(p: Parsers, task: Task, spec: Spec, v: Violation)
    ensures v in TaskViolations(p, task, spec) <==> TaskFault(p, task, spec, v)
  {
    var deps := p.snapshot(task.dependenciesJson);
    if deps.Some? {
      SnapshotFaultsAre(p, TaskSubject(task), deps.value, spec, v);
    }
  }

  ghost predicate FieldsDiffer(violations: seq<Violation>) {
    forall i, j :: 0 <= i < j < |violations| ==> violations[i].field != violations[j].field
  }

  /** No field of a page or of a task is reported twice. */
  lemma PageFieldsDiffer(p: Parsers, page: Page, spec: Spec)
    ensures FieldsDiffer(PageViolations(p, page, spec))
  {
    var subject := PageSubject(page);
    var pack := Listed(CheckSemverField(p, subject, "domain_pack_version", page.domainPackVersion, spec.domainPack));
    var artifact := Listed(CheckArtifactField(subject, "artifact_version", page.artifactVersion, spec.artifact));
    AppendDiffers(pack, artifact);
    forall v | v in FrontmatterViolations(p, page, spec)
      ensures v.field != "domain_pack_version" && v.field != "artifact_version"
    {
      FrontmatterFaultIs(p, page, spec, v);
    }
    AppendDiffers(pack + artifact, FrontmatterViolations(p, page, spec));
  }

  lemma TaskFieldsDiffer(p: Parsers, task: Task, spec: Spec)
    ensures FieldsDiffer(TaskViolations(p, task, spec))
  {
    var subject, read := TaskSubject(task), p.snapshot(task.dependenciesJson);
    if read.Some? {
      var deps := read.value;
      var pack := Listed(CheckSemverField(p, subject, "domain_pack_version", deps.domainPackVersion, spec.domainPack));
      var schema := Listed(CheckOptionalField(p, subject, "schema_version", deps.schemaVersion, spec.schema));
      var prompt := Listed(CheckOptionalField(p, subject, "prompt_version", deps.promptVersion, spec.prompt));
      var artifact := Listed(CheckArtifactField(subject, "artifact_version", deps.artifactVersion, spec.artifact));
      AppendDiffers(pack, schema);
      AppendDiffers(pack + schema, prompt);
      AppendDiffers(pack + schema + prompt, artifact);
    }
  }

  lemma AppendDiffers(s: seq<Violation>, t: seq<Violation>)
    requires FieldsDiffer(s) && |t| <= 1 && forall v, w :: v in s && w in t ==> v.field != w.field
    ensures FieldsDiffer(s + t)
  {
  }

  // ----- The report -----

  /** A task of the domain: its entity is the domain itself or continues it after a colon. */
  predicate InScope(domain: string, task: Task) {
    ':' !in domain && (task.entityId == domain || domain + ":" <= task.entityId)
  }

  /** The first segment of an entity key. */
  lemma SegmentOf(id: string)
    ensures ':' !in id ==> EntityDomain(id) == id
    ensures ':' in id ==> ':' !in EntityDomain(id) && EntityDomain(id) + ":" <= id
  {
    if i :| 0 <= i < |id| && id[i] == ':' {
      assert OccursAt(id, ":", i);
      var split := SplitOnce(id, ":").value;
      EntityDomainOfKey(split.0, split.1);
    } else {
      forall i ensures !OccursAt(id, ":", i) {
        assert 0 <= i < |id| ==> id[i + 0] != ":"[0];
      }
    }
  }

  lemma SegmentUnique(a: string, b: string, id: string)
    requires a + ":" <= id
    ensures ':' in id
    ensures ':' !in a && ':' !in b && b + ":" <= id ==> a == b
  {
    NotBeforeColon(a, b, id);
    NotBeforeColon(b, a, id);
    if b + ":" <= id && |a| == |b| {
      assert a == (a + ":")[..|a|] && b == (b + ":")[..|b|];
    }
  }

  lemma NotBeforeColon(a: string, b: string, id: string)
    ensures b + ":" <= id ==> ':' in id
    ensures ':' !in a && a + ":" <= id && b + ":" <= id ==> |a| <= |b|
  {
    if b + ":" <= id {
      assert id[|b|] == (b + ":")[|b|] == ':';
      if a + ":" <= id {
        assert forall k :: 0 <= k < |a| ==> id[k] == (a + ":")[k] == a[k];
      }
    }
  }

  lemma EntityDomainIs(domain: string, task: Task)
    ensures EntityDomain(task.entityId) == domain <==> InScope(domain, task)
  {
    SegmentOf(task.entityId);
    if domain + ":" <= task.entityId {
      SegmentUnique(domain, EntityDomain(task.entityId), task.entityId);
    }
  }

  function Scope(domain: string): Task -> bool { (t: Task) => InScope(domain, t) }

  lemma {:induction false} FlattenMembers<T, U>(f: T -> seq<U>, s: seq<T>, v: U)
    ensures v in Flatten(Map(f, s)) <==> exists i :: 0 <= i < |s| && v in f(s[i])
  {
    if s != [] {
      var front, last := s[..|s| - 1], s[|s| - 1];
      FlattenMembers(f, front, v);
      FlatMapPush(f, front, last);
      FrontLast(s);
    }
  }

  lemma PageRowsList(p: Parsers, spec: Spec, pages: seq<Page>, v: Violation)
    ensures v in Flatten(Map(OfPages(p, spec), pages)) <==> exists page :: page in pages && PageFault(p, page, spec, v)
  {
    FlattenMembers(OfPages(p, spec), pages, v);
    forall i | 0 <= i < |pages| ensures v in OfPages(p, spec)(pages[i]) <==> PageFault(p, pages[i], spec, v) {
      PageFaultsAre(p, pages[i], spec, v);
    }
    assert forall i :: 0 <= i < |pages| ==> pages[i] in pages;
  }

  lemma TaskRowsList(p: Parsers, spec: Spec, tasks: seq<Task>, v: Violation)
    ensures v in Flatten(Map(OfTasks(p, spec), tasks)) <==> exists task :: task in tasks && TaskFault(p, task, spec, v)
  {
    FlattenMembers(OfTasks(p, spec), tasks, v);
    forall i | 0 <= i < |tasks| ensures v in OfTasks(p, spec)(tasks[i]) <==> TaskFault(p, tasks[i], spec, v) {
      TaskFaultsAre(p, tasks[i], spec, v);
    }
    assert forall i :: 0 <= i < |tasks| ==> tasks[i] in tasks;
  }

  lemma ScopeIs(domain: string, allTasks: seq<Task>)
    ensures Filter(InDomain(domain), allTasks) == Filter(Scope(domain), allTasks)
  {
    forall t: Task ensures InDomain(domain)(t) == Scope(domain)(t) {
      EntityDomainIs(domain, t);
    }
    FilterSame(InDomain(domain), Scope(domain), allTasks);
  }

  lemma {:induction false} FilterSame<T(!new)>(p: T -> bool, q: T -> bool, s: seq<T>)
    requires forall x :: p(x) == q(x)
    ensures Filter(p, s) == Filter(q, s)
  {
    if s != [] {
      FilterSame(p, q, s[..|s| - 1]);
    }
  }

  /** The report counts its rows, and lists exactly what is wrong with a page or with a task
      of the domain. */
  lemma ReportLists(p: Parsers, domain: string, spec: Spec, pages: seq<Page>, allTasks: seq<Task>, v: Violation)
    ensures var r := ReportOf(p, domain, spec, pages, allTasks);
            && r.checkedPages == |pages| && r.checkedTasks == |Filter(Scope(domain), allTasks)|
            && (v in r.violations <==>
                || (exists page :: page in pages && PageFault(p, page, spec, v))
                || (exists task :: task in allTasks && InScope(domain, task) && TaskFault(p, task, spec, v)))
  {
    var tasks := Filter(InDomain(domain), allTasks);
    ScopeIs(domain, allTasks);
    PageRowsList(p, spec, pages, v);
    TaskRowsList(p, spec, tasks, v);
    assert forall t :: t in tasks <==> t in allTasks && InScope(domain, t);
  }
}
