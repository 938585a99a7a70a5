/** Widening the matrix never turns a compatible row into an incompatible one. */
module CompatibilityWidening {
  import opened Wrappers
  import opened Sequences
  import opened Compatibility

  ghost predicate ReqWithin(a: VersionReq, b: VersionReq) { forall v :: a.admits(v) ==> b.admits(v) }

  /** Every range of the second matrix admits what the first admits, and its allowlist is as long. */
  ghost predicate Widens(a: Spec, b: Spec) {
    && ReqWithin(a.domainPack, b.domainPack)
    && ReqWithin(a.schema, b.schema)
    && ReqWithin(a.prompt, b.prompt)
    && a.artifact <= b.artifact
  }

  /** A violation without the text of the expectation, which quotes the matrix. */
  function Strip(v: Violation): Violation { v.(expected := "") }

  /** The first list reports nothing, counted with repetitions, that the second does not. */
  ghost predicate NoMore(a: seq<Violation>, b: seq<Violation>) {
    multiset(Map(Strip, a)) <= multiset(Map(Strip, b))
  }

  ghost predicate Kept(wide: Option<Violation>, narrow: Option<Violation>) {
    wide.Some? ==> narrow.Some? && Strip(wide.value) == Strip(narrow.value)
  }

  lemma ListedNoMore(wide: Option<Violation>, narrow: Option<Violation>)
    requires Kept(wide, narrow)
    ensures NoMore(Listed(wide), Listed(narrow))
  {
    if wide.Some? {
      assert Map(Strip, Listed(wide)) == [Strip(wide.value)] == Map(Strip, Listed(narrow));
    } else {
      assert Map(Strip, Listed(wide)) == [];
    }
  }

  lemma AppendNoMore(a: seq<Violation>, b: seq<Violation>, c: seq<Violation>, d: seq<Violation>)
    requires NoMore(a, c) && NoMore(b, d)
    ensures NoMore(a + b, c + d)
  {
    assert Map(Strip, a + b) == Map(Strip, a) + Map(Strip, b);
    assert Map(Strip, c + d) == Map(Strip, c) + Map(Strip, d);
  }

  lemma SingleNoMore(a: seq<Violation>, b: seq<Violation>)
    requires |a| == |b| == 1 && Strip(a[0]) == Strip(b[0])
    ensures NoMore(a, b)
  {
    assert Map(Strip, a) == Map(Strip, b);
  }

  lemma SameNoMore(a: seq<Violation>)
    ensures NoMore(a, a)
  {
  }

  lemma SemverKept(p: Parsers, subject: string, field: string, observed: string, narrow: VersionReq, wide: VersionReq)
    requires ReqWithin(narrow, wide)
    ensures Kept(CheckSemverField(p, subject, field, observed, wide), CheckSemverField(p, subject, field, observed, narrow))
  {
  }

  lemma OptionalKept(p: Parsers, subject: string, field: string, observed: Option<string>, narrow: VersionReq, wide: VersionReq)
    requires ReqWithin(narrow, wide)
    ensures Kept(CheckOptionalField(p, subject, field, observed, wide), CheckOptionalField(p, subject, field, observed, narrow))
  {
  }

  lemma ArtifactKept(subject: string, field: string, observed: string, narrow: set<string>, wide: set<string>)
    requires narrow <= wide
    ensures Kept(CheckArtifactField(subject, field, observed, wide), CheckArtifactField(subject, field, observed, narrow))
  {
  }

  lemma FrontmatterNoMore(p: Parsers, page: Page, narrow: Spec, wide: Spec)
    requires Widens(narrow, wide)
    ensures NoMore(FrontmatterViolations(p, page, wide), FrontmatterViolations(p, page, narrow))
  {
    var f, subject := p.frontmatter(page.frontmatterJson), PageSubject(page);
    var w, n := FrontmatterViolations(p, page, wide), FrontmatterViolations(p, page, narrow);
    if f.Policy? {
      var field, observed := "quality_policy.artifact_version", if f.artifact.Some? then f.artifact.value else "";
      ArtifactKept(subject, field, observed, narrow.artifact, wide.artifact);
      ListedNoMore(CheckArtifactField(subject, field, observed, wide.artifact),
                   CheckArtifactField(subject, field, observed, narrow.artifact));
    } else {
      assert |w| == |n| == 1 && Strip(w[0]) == Strip(n[0]);
      SingleNoMore(w, n);
    }
  }

  lemma PageNoMore(p: Parsers, page: Page, narrow: Spec, wide: Spec)
    requires Widens(narrow, wide)
    ensures NoMore(PageViolations(p, page, wide), PageViolations(p, page, narrow))
  {
    var subject := PageSubject(page);
    var w1 := CheckSemverField(p, subject, "domain_pack_version", page.domainPackVersion, wide.domainPack);
    var n1 := CheckSemverField(p, subject, "domain_pack_version", page.domainPackVersion, narrow.domainPack);
    var w2 := CheckArtifactField(subject, "artifact_version", page.artifactVersion, wide.artifact);
    var n2 := CheckArtifactField(subject, "artifact_version", page.artifactVersion, narrow.artifact);
    SemverKept(p, subject, "domain_pack_version", page.domainPackVersion, narrow.domainPack, wide.domainPack);
    ArtifactKept(subject, "artifact_version", page.artifactVersion, narrow.artifact, wide.artifact);
    ListedNoMore(w1, n1);
    ListedNoMore(w2, n2);
    AppendNoMore(Listed(w1), Listed(w2), Listed(n1), Listed(n2));
    FrontmatterNoMore(p, page, narrow, wide);
    AppendNoMore(Listed(w1) + Listed(w2), FrontmatterViolations(p, page, wide),
                 Listed(n1) + Listed(n2), FrontmatterViolations(p, page, narrow));
  }

  lemma SnapshotNoMore(p: Parsers, subject: string, deps: Snapshot, narrow: Spec, wide: Spec)
    requires Widens(narrow, wide)
    ensures NoMore(SnapshotViolations(p, subject, deps, wide), SnapshotViolations(p, subject, deps, narrow))
  {
    var w1 := CheckSemverField(p, subject, "domain_pack_version", deps.domainPackVersion, wide.domainPack);
    var n1 := CheckSemverField(p, subject, "domain_pack_version", deps.domainPackVersion, narrow.domainPack);
    var w2 := CheckOptionalField(p, subject, "schema_version", deps.schemaVersion, wide.schema);
    var n2 := CheckOptionalField(p, subject, "schema_version", deps.schemaVersion, narrow.schema);
    var w3 := CheckOptionalField(p, subject, "prompt_version", deps.promptVersion, wide.prompt);
    var n3 := CheckOptionalField(p, subject, "prompt_version", deps.promptVersion, narrow.prompt);
    var w4 := CheckArtifactField(subject, "artifact_version", deps.artifactVersion, wide.artifact);
    var n4 := CheckArtifactField(subject, "artifact_version", deps.artifactVersion, narrow.artifact);
    SemverKept(p, subject, "domain_pack_version", deps.domainPackVersion, narrow.domainPack, wide.domainPack);
    OptionalKept(p, subject, "schema_version", deps.schemaVersion, narrow.schema, wide.schema);
    OptionalKept(p, subject, "prompt_version", deps.promptVersion, narrow.prompt, wide.prompt);
    ArtifactKept(subject, "artifact_version", deps.artifactVersion, narrow.artifact, wide.artifact);
    ListedNoMore(w1, n1);
    ListedNoMore(w2, n2);
    ListedNoMore(w3, n3);
    ListedNoMore(w4, n4);
    AppendNoMore(Listed(w1), Listed(w2), Listed(n1), Listed(n2));
    AppendNoMore(Listed(w1) + Listed(w2), Listed(w3), Listed(n1) + Listed(n2), Listed(n3));
    AppendNoMore(Listed(w1) + Listed(w2) + Listed(w3), Listed(w4), Listed(n1) + Listed(n2) + Listed(n3), Listed(n4));
  }

  lemma TaskNoMore(p: Parsers, task: Task, narrow: Spec, wide: Spec)
    requires Widens(narrow, wide)
    ensures NoMore(TaskViolations(p, task, wide), TaskViolations(p, task, narrow))
  {
    var deps := p.snapshot(task.dependenciesJson);
    if deps.Some? {
      SnapshotNoMore(p, TaskSubject(task), deps.value, narrow, wide);
    } else {
      SameNoMore(TaskViolations(p, task, wide));
    }
  }

  lemma {:induction false} FlattenNoMore<T>(f: T -> seq<Violation>, g: T -> seq<Violation>, s: seq<T>)
    requires forall x :: x in s ==> NoMore(f(x), g(x))
    ensures NoMore(Flatten(Map(f, s)), Flatten(Map(g, s)))
  {
    if s == [] {
      assert Map(f, s) == [] && Map(g, s) == [];
    } else {
      var front, last := s[..|s| - 1], s[|s| - 1];
      FlattenNoMore(f, g, front);
      FrontLast(s);
      FlatMapPush(f, front, last);
      FlatMapPush(g, front, last);
      AppendNoMore(Flatten(Map(f, front)), f(last), Flatten(Map(g, front)), g(last));
    }
  }

  /** Widening any range or the allowlist adds no violation: each row violates at most what
      it violated, as often as it did, up to the quoted expectation. What was compatible
      stays compatible. */
  lemma WideningNeverAdds(p: Parsers, domain: string, narrow: Spec, wide: Spec, pages: seq<Page>, tasks: seq<Task>)
    requires Widens(narrow, wide)
    ensures NoMore(ReportOf(p, domain, wide, pages, tasks).violations, ReportOf(p, domain, narrow, pages, tasks).violations)
    ensures ReportOf(p, domain, narrow, pages, tasks).compatible ==> ReportOf(p, domain, wide, pages, tasks).compatible
  {
    var own := Filter(InDomain(domain), tasks);
    forall page | page in pages ensures NoMore(OfPages(p, wide)(page), OfPages(p, narrow)(page)) {
      PageNoMore(p, page, narrow, wide);
    }
    forall task | task in own ensures NoMore(OfTasks(p, wide)(task), OfTasks(p, narrow)(task)) {
      TaskNoMore(p, task, narrow, wide);
    }
    FlattenNoMore(OfPages(p, wide), OfPages(p, narrow), pages);
    FlattenNoMore(OfTasks(p, wide), OfTasks(p, narrow), own);
    AppendNoMore(Flatten(Map(OfPages(p, wide), pages)), Flatten(Map(OfTasks(p, wide), own)),
                 Flatten(Map(OfPages(p, narrow), pages)), Flatten(Map(OfTasks(p, narrow), own)));
    NoneIsNoMore(ReportOf(p, domain, wide, pages, tasks).violations, ReportOf(p, domain, narrow, pages, tasks).violations);
  }

  lemma NoneIsNoMore(a: seq<Violation>, b: seq<Violation>)
    requires NoMore(a, b)
    ensures b == [] ==> a == []
  {
    if a != [] {
      assert Map(Strip, a)[0] in multiset(Map(Strip, a));
      assert Map(Strip, a)[0] in multiset(Map(Strip, b));
    }
  }

  /** No matrix, however wide, accepts a row that cannot be read or that states no policy. */
  lemma CorruptIsNeverAccepted(p: Parsers, domain: string, spec: Spec, pages: seq<Page>, tasks: seq<Task>)
    requires
      || (exists page :: page in pages && !p.frontmatter(page.frontmatterJson).Policy?)
      || (exists task :: task in tasks && EntityDomain(task.entityId) == domain && p.snapshot(task.dependenciesJson).None?)
    ensures !ReportOf(p, domain, spec, pages, tasks).compatible
  {
    CompatibleIff(p, domain, spec, pages, tasks);
  }
}
