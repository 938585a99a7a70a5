/** What the arbiter's report says about the refs it was given, in terms of the refs alone:
    which pointers are compared, which claims diverge, and what a finding shows. */
module ConsistencyClaims {
  import opened Wrappers
  import opened Sequences
  import opened Orders
  import opened CanonicalJson
  import opened Consistency

  /** The pointer is on the allowlist and names something below `/fields/`. */
  ghost predicate AtListedField(pointer: string, comparePointers: seq<string>) {
    pointer in comparePointers && exists rest :: rest != "" && pointer == "/fields/" + rest
  }

  lemma ComparableMeansListed(pointer: string, comparePointers: seq<string>)
    ensures IsComparablePointer(pointer, comparePointers) <==> AtListedField(pointer, comparePointers)
  {
    if IsComparablePointer(pointer, comparePointers) {
      var rest := pointer[|FIELDS_PREFIX|..];
      assert pointer == FIELDS_PREFIX + rest == "/fields/" + rest;
    }
    if rest :| rest != "" && pointer == "/fields/" + rest {
      assert pointer[..|FIELDS_PREFIX|] == "/fields/";
    }
  }

  /** The ref states a value for the claim that takes part in the comparison. */
  ghost predicate States(r: SourceRef, key: ClaimKey, comparePointers: seq<string>) {
    && r.entityId == key.entityId && r.pointer == key.pointer
    && AtListedField(key.pointer, comparePointers) && AllFinite(r.value)
  }

  lemma StatesMeansValue(refs: seq<SourceRef>, key: ClaimKey, pointers: seq<string>, r: SourceRef)
    requires r in refs && States(r, key, pointers)
    ensures Canonical(r.value).Some? && Canonical(r.value).value in Values(refs, pointers, key)
  {
    ComparableMeansListed(r.pointer, pointers);
    EncodesIffFinite(r.value);
    assert Supports(r, key, pointers);
  }

  lemma ValueIsStated(refs: seq<SourceRef>, key: ClaimKey, pointers: seq<string>, v: Bytes) returns (r: SourceRef)
    requires v in Values(refs, pointers, key)
    ensures r in refs && States(r, key, pointers) && Canonical(r.value) == Some(v)
  {
    r :| r in refs && Supports(r, key, pointers) && Canonical(r.value) == Some(v);
    ComparableMeansListed(r.pointer, pointers);
    EncodesIffFinite(r.value);
  }

  /** A ref of some section of the page's evidence; a page without evidence has none. */
  ghost predicate OnPage(r: SourceRef, p: Page) {
    p.evidence.Some? && exists i :: 0 <= i < |p.evidence.value| && r in p.evidence.value[i].refs
  }

  lemma {:induction false} FlattenHolds<T>(parts: seq<seq<T>>, x: T)
    ensures x in Flatten(parts) <==> exists i :: 0 <= i < |parts| && x in parts[i]
  {
    if parts != [] {
      FlattenHolds(parts[..|parts| - 1], x);
      FrontLast(parts);
    }
  }

  lemma RefsOfPage(r: SourceRef, p: Page)
    ensures r in Refs(p) <==> OnPage(r, p)
  {
    if p.evidence.Some? {
      var sections := p.evidence.value;
      FlattenHolds(Map(SectionRefs, sections), r);
      assert forall i :: 0 <= i < |sections| ==> Map(SectionRefs, sections)[i] == sections[i].refs;
    }
  }

  /** The refs of a dispute are those of its candidate and of its related pages. */
  lemma RefsOfDispute(r: SourceRef, d: Dispute)
    ensures r in AllRefs(d) <==> OnPage(r, d.candidate) || exists i :: 0 <= i < |d.related| && OnPage(r, d.related[i])
  {
    RefsOfPage(r, d.candidate);
    FlattenHolds(Map(Refs, d.related), r);
    forall i | 0 <= i < |d.related| ensures r in Map(Refs, d.related)[i] <==> OnPage(r, d.related[i]) {
      RefsOfPage(r, d.related[i]);
    }
  }

  /** The ref states a non-finite number at a listed field. */
  ghost predicate Spoils(r: SourceRef, comparePointers: seq<string>) {
    AtListedField(r.pointer, comparePointers) && !AllFinite(r.value)
  }

  /** The first ref that does decides the failure, by its id and pointer. */
  lemma {:induction false} FirstSpoilerDecides(refs: seq<SourceRef>, pointers: seq<string>, i: nat)
    requires i < |refs| && Spoils(refs[i], pointers) && forall j :: 0 <= j < i ==> !Spoils(refs[j], pointers)
    ensures FirstUnencodable(refs, pointers) == Some(Unencodable(refs[i].id, refs[i].pointer))
  {
    var front, last := refs[..|refs| - 1], refs[|refs| - 1];
    ComparableMeansListed(last.pointer, pointers);
    EncodesIffFinite(last.value);
    if i < |front| {
      FirstSpoilerDecides(front, pointers, i);
    } else {
      FailsIffNonFinite(front, pointers);
      forall r | r in front ensures !(IsComparablePointer(r.pointer, pointers) && !AllFinite(r.value)) {
        var j :| 0 <= j < |front| && front[j] == r;
        assert !Spoils(refs[j], pointers);
        ComparableMeansListed(r.pointer, pointers);
      }
    }
  }

  // ----- Which claims diverge -----

  ghost predicate Found(report: Report, key: ClaimKey) {
    exists i :: 0 <= i < |report.findings| && report.findings[i].key == key
  }

  lemma FoundMeansDivergent(d: Dispute, hash: Bytes -> Digest, key: ClaimKey)
    ensures Found(ReportOf(d, hash), key) <==> IsDivergent(d, key)
  {
    var findings := ReportOf(d, hash).findings;
    FindingsShape(d, hash, key);
    if IsDivergent(d, key) {
      DivergentIsCompared(d, key);
      var i :| 0 <= i < |findings| && findings[i] == FindingFor(d, hash, key);
    }
    if i :| 0 <= i < |findings| && findings[i].key == key {
      var keys := SortedClaimKeys(DivergentKeys(d));
      assert findings[i] == FindingFor(d, hash, keys[i]);
      assert keys[i] == key && keys[i] in keys;
    }
  }

  /** A claim has a finding exactly when two refs at a listed field state different finite
      values for it. */
  lemma FoundIff(d: Dispute, hash: Bytes -> Digest, key: ClaimKey)
    requires forall r :: r in AllRefs(d) ==> Fits(r.value)
    ensures Found(ReportOf(d, hash), key) <==>
            exists r, q :: r in AllRefs(d) && q in AllRefs(d) && r.value != q.value
                           && States(r, key, d.comparePointers) && States(q, key, d.comparePointers)
  {
    FoundMeansDivergent(d, hash, key);
    GroupIsAllValues(d, key);
    var refs, pointers := AllRefs(d), d.comparePointers;
    if IsDivergent(d, key) {
      var v :| v in GroupValues(d, key);
      TwoElements(GroupValues(d, key), v);
      var w :| w in GroupValues(d, key) - {v};
      var r := ValueIsStated(refs, key, pointers, v);
      var q := ValueIsStated(refs, key, pointers, w);
      assert r.value != q.value;
    }
    if r, q :| r in refs && q in refs && r.value != q.value && States(r, key, pointers) && States(q, key, pointers) {
      StatesMeansValue(refs, key, pointers, r);
      StatesMeansValue(refs, key, pointers, q);
      ComparableMeansListed(key.pointer, pointers);
      TwoRefsTwoValues(refs, pointers, key, r, q);
    }
  }

  /** Every finding is at a listed pointer below `/fields/`. */
  lemma FindingsAreListed(d: Dispute, hash: Bytes -> Digest, i: nat)
    requires i < |ReportOf(d, hash).findings|
    ensures AtListedField(ReportOf(d, hash).findings[i].key.pointer, d.comparePointers)
  {
    var key := ReportOf(d, hash).findings[i].key;
    FoundMeansDivergent(d, hash, key);
    GroupIsAllValues(d, key);
    var v :| v in GroupValues(d, key);
    var r := ValueIsStated(AllRefs(d), key, d.comparePointers, v);
  }

  ghost predicate AtMostAs(r: SourceRef, q: SourceRef) {
    && Canonical(r.value).Some? && Canonical(q.value).Some?
    && (Canonical(r.value) == Canonical(q.value) || BytesLt(Canonical(r.value).value, Canonical(q.value).value))
  }

  /** The two hashes of a finding are those of two different values stated for its claim: the
      least one of the candidate page, or of all pages if the candidate states none, and the
      least one that differs from it. */
  ghost predicate Shows(d: Dispute, hash: Bytes -> Digest, f: Finding, r: SourceRef, q: SourceRef) {
    && r in AllRefs(d) && q in AllRefs(d)
    && States(r, f.key, d.comparePointers) && States(q, f.key, d.comparePointers)
    && Canonical(r.value).Some? && Canonical(q.value).Some? && Canonical(r.value) != Canonical(q.value)
    && f.candidateHash == hash(Canonical(r.value).value) && f.evidenceHash == hash(Canonical(q.value).value)
    && (forall c :: c in Refs(d.candidate) && States(c, f.key, d.comparePointers) ==>
          r in Refs(d.candidate) && AtMostAs(r, c))
    && (r !in Refs(d.candidate) ==>
          forall c :: c in AllRefs(d) && States(c, f.key, d.comparePointers) ==> AtMostAs(r, c))
    && (forall c :: c in AllRefs(d) && States(c, f.key, d.comparePointers) && Canonical(c.value) != Canonical(r.value) ==>
          AtMostAs(q, c))
  }

  lemma CandidateIsLeast(d: Dispute, key: ClaimKey, r: SourceRef, c: SourceRef)
    requires IsDivergent(d, key) && Canonical(r.value) == Some(CandidateValue(d, key))
    requires States(c, key, d.comparePointers)
    ensures c in Refs(d.candidate) ==> CandidateValues(d, key) != {} && AtMostAs(r, c)
    ensures c in AllRefs(d) && CandidateValues(d, key) == {} ==> AtMostAs(r, c)
  {
    if c in Refs(d.candidate) {
      StatesMeansValue(Refs(d.candidate), key, d.comparePointers, c);
    } else if c in AllRefs(d) {
      StatesMeansValue(AllRefs(d), key, d.comparePointers, c);
      GroupIsAllValues(d, key);
    }
  }

  lemma EvidenceIsLeastOther(d: Dispute, key: ClaimKey, r: SourceRef, q: SourceRef, c: SourceRef)
    requires IsDivergent(d, key) && Canonical(r.value) == Some(CandidateValue(d, key))
    requires Canonical(q.value) == Some(EvidenceValue(d, key))
    requires c in AllRefs(d) && States(c, key, d.comparePointers) && Canonical(c.value) != Canonical(r.value)
    ensures AtMostAs(q, c)
  {
    StatesMeansValue(AllRefs(d), key, d.comparePointers, c);
    GroupIsAllValues(d, key);
  }

  /** A ref that states the candidate side, on the candidate page if that states anything. */
  lemma CandidateRef(d: Dispute, key: ClaimKey) returns (r: SourceRef)
    requires IsDivergent(d, key)
    ensures r in AllRefs(d) && States(r, key, d.comparePointers) && Canonical(r.value) == Some(CandidateValue(d, key))
    ensures r in Refs(d.candidate) <==> CandidateValues(d, key) != {}
  {
    if CandidateValues(d, key) != {} {
      r := ValueIsStated(Refs(d.candidate), key, d.comparePointers, CandidateValue(d, key));
    } else {
      GroupIsAllValues(d, key);
      r := ValueIsStated(AllRefs(d), key, d.comparePointers, CandidateValue(d, key));
      if r in Refs(d.candidate) {
        StatesMeansValue(Refs(d.candidate), key, d.comparePointers, r);
      }
    }
  }

  lemma FindingIs(d: Dispute, hash: Bytes -> Digest, i: nat)
    requires i < |ReportOf(d, hash).findings|
    ensures var f := ReportOf(d, hash).findings[i];
            && IsDivergent(d, f.key)
            && f.candidateHash == hash(CandidateValue(d, f.key)) && f.evidenceHash == hash(EvidenceValue(d, f.key))
  {
    FoundMeansDivergent(d, hash, ReportOf(d, hash).findings[i].key);
  }

  lemma FindingShows(d: Dispute, hash: Bytes -> Digest, i: nat) returns (r: SourceRef, q: SourceRef)
    requires i < |ReportOf(d, hash).findings|
    ensures Shows(d, hash, ReportOf(d, hash).findings[i], r, q)
  {
    var f := ReportOf(d, hash).findings[i];
    FindingIs(d, hash, i);
    r, q := ShowsPair(d, f.key);
    forall c | States(c, f.key, d.comparePointers)
      ensures c in Refs(d.candidate) ==> r in Refs(d.candidate) && AtMostAs(r, c)
      ensures c in AllRefs(d) && r !in Refs(d.candidate) ==> AtMostAs(r, c)
    {
      CandidateIsLeast(d, f.key, r, c);
    }
    forall c | c in AllRefs(d) && States(c, f.key, d.comparePointers) && Canonical(c.value) != Canonical(r.value)
      ensures AtMostAs(q, c)
    {
      EvidenceIsLeastOther(d, f.key, r, q, c);
    }
  }

  lemma ShowsPair(d: Dispute, key: ClaimKey) returns (r: SourceRef, q: SourceRef)
    requires IsDivergent(d, key)
    ensures r in AllRefs(d) && States(r, key, d.comparePointers) && Canonical(r.value) == Some(CandidateValue(d, key))
    ensures r in Refs(d.candidate) <==> CandidateValues(d, key) != {}
    ensures q in AllRefs(d) && States(q, key, d.comparePointers) && Canonical(q.value) == Some(EvidenceValue(d, key))
  {
    r := CandidateRef(d, key);
    GroupIsAllValues(d, key);
    q := ValueIsStated(AllRefs(d), key, d.comparePointers, EvidenceValue(d, key));
  }

  /** Findings come by entity, and by pointer within an entity. */
  lemma FindingsByEntityThenPointer(d: Dispute, hash: Bytes -> Digest, i: nat, j: nat)
    requires i < j < |ReportOf(d, hash).findings|
    ensures var a, b := ReportOf(d, hash).findings[i].key, ReportOf(d, hash).findings[j].key;
            StringLt(a.entityId, b.entityId) || (a.entityId == b.entityId && StringLt(a.pointer, b.pointer))
  {
    FindingsShape(d, hash, ReportOf(d, hash).findings[i].key);
  }

  // ----- Which claims are compared -----

  /** Page 0 is the candidate. */
  function Pages(d: Dispute): seq<Page> { [d.candidate] + d.related }

  ghost predicate StatedOn(d: Dispute, key: ClaimKey, i: nat) {
    i < |Pages(d)| && exists r :: r in Refs(Pages(d)[i]) && States(r, key, d.comparePointers)
  }

  ghost predicate StatedApart(d: Dispute, key: ClaimKey, i: nat) {
    i < |Pages(d)| && exists r, q :: r in Refs(Pages(d)[i]) && q in Refs(Pages(d)[i]) && r.value != q.value
                                     && States(r, key, d.comparePointers) && States(q, key, d.comparePointers)
  }

  /** The same claim is stated on two pages, or with two values on one. */
  ghost predicate StatedTwice(d: Dispute, key: ClaimKey) {
    || (exists i: nat :: StatedApart(d, key, i))
    || (exists i: nat, j: nat :: i < j && StatedOn(d, key, i) && StatedOn(d, key, j))
  }

  lemma OccurrencesByPage(d: Dispute, key: ClaimKey)
    ensures Occurrences(d, key) == SumBy(PageCount(d.comparePointers, key), Pages(d))
  {
    var f := PageCount(d.comparePointers, key);
    SumByAppend(f, [d.candidate], d.related);
    SumByPush(f, [], d.candidate);
    assert [] + [d.candidate] == [d.candidate];
  }

  lemma {:induction false} SumFacts<T>(f: T -> int, s: seq<T>)
    requires forall x :: x in s ==> f(x) >= 0
    ensures SumBy(f, s) >= 0
    ensures forall i :: 0 <= i < |s| ==> SumBy(f, s) >= f(s[i])
    ensures SumBy(f, s) > 0 ==> exists i :: 0 <= i < |s| && f(s[i]) > 0
  {
    if s != [] {
      SumFacts(f, s[..|s| - 1]);
      FrontLast(s);
    }
  }

  lemma {:induction false} PairInSum<T>(f: T -> int, s: seq<T>, i: nat, j: nat)
    requires i < j < |s| && forall x :: x in s ==> f(x) >= 0
    ensures SumBy(f, s) >= f(s[i]) + f(s[j])
  {
    var front := s[..|s| - 1];
    FrontLast(s);
    if j == |s| - 1 {
      SumFacts(f, front);
      assert front[i] == s[i];
    } else {
      PairInSum(f, front, i, j);
    }
  }

  /** A sum of two or more has a term of two or two terms. */
  lemma {:induction false} TwoFromSum<T>(f: T -> int, s: seq<T>) returns (i: nat, j: nat)
    requires SumBy(f, s) >= 2 && forall x :: x in s ==> f(x) >= 0
    ensures i <= j < |s| && f(s[i]) > 0 && f(s[j]) > 0 && (i == j ==> f(s[i]) >= 2)
  {
    var front, last := s[..|s| - 1], s[|s| - 1];
    FrontLast(s);
    SumFacts(f, front);
    if SumBy(f, front) >= 2 {
      i, j := TwoFromSum(f, front);
    } else if SumBy(f, front) > 0 {
      i :| 0 <= i < |front| && f(front[i]) > 0;
      j := |s| - 1;
    } else {
      i, j := |s| - 1, |s| - 1;
    }
  }

  lemma StatedOnPage(d: Dispute, key: ClaimKey, i: nat)
    requires i < |Pages(d)| && forall r :: r in Refs(Pages(d)[i]) ==> Fits(r.value)
    ensures PageCount(d.comparePointers, key)(Pages(d)[i]) > 0 <==> StatedOn(d, key, i)
    ensures PageCount(d.comparePointers, key)(Pages(d)[i]) >= 2 <==> StatedApart(d, key, i)
  {
    var refs, pointers := Refs(Pages(d)[i]), d.comparePointers;
    var values := Values(refs, pointers, key);
    if values != {} {
      var v :| v in values;
      var r := ValueIsStated(refs, key, pointers, v);
      if |values| >= 2 {
        TwoElements(values, v);
        var w :| w in values - {v};
        var q := ValueIsStated(refs, key, pointers, w);
        assert r.value != q.value;
      }
    }
    if r :| r in refs && States(r, key, pointers) {
      StatesMeansValue(refs, key, pointers, r);
    }
    if r, q :| r in refs && q in refs && r.value != q.value && States(r, key, pointers) && States(q, key, pointers) {
      StatesMeansValue(refs, key, pointers, r);
      StatesMeansValue(refs, key, pointers, q);
      ComparableMeansListed(key.pointer, pointers);
      TwoRefsTwoValues(refs, pointers, key, r, q);
    }
  }

  ghost predicate AllFit(d: Dispute) {
    forall i :: 0 <= i < |Pages(d)| ==> forall r :: r in Refs(Pages(d)[i]) ==> Fits(r.value)
  }

  lemma ComparedIsStatedTwice(d: Dispute, key: ClaimKey)
    requires AllFit(d) && IsCompared(d, key)
    ensures StatedTwice(d, key)
  {
    OccurrencesByPage(d, key);
    var i, j := TwoFromSum(PageCount(d.comparePointers, key), Pages(d));
    StatedOnPage(d, key, i);
    StatedOnPage(d, key, j);
  }

  lemma StatedTwiceIsCompared(d: Dispute, key: ClaimKey)
    requires AllFit(d) && StatedTwice(d, key)
    ensures IsCompared(d, key)
  {
    var f, pages := PageCount(d.comparePointers, key), Pages(d);
    OccurrencesByPage(d, key);
    if i: nat :| StatedApart(d, key, i) {
      SumFacts(f, pages);
      StatedOnPage(d, key, i);
    } else {
      var i: nat, j: nat :| i < j && StatedOn(d, key, i) && StatedOn(d, key, j);
      StatedOnPage(d, key, i);
      StatedOnPage(d, key, j);
      PairInSum(f, pages, i, j);
    }
  }

  /** The report counts the claims that are stated twice. */
  lemma ComparedIff(d: Dispute, hash: Bytes -> Digest, key: ClaimKey)
    requires AllFit(d)
    ensures key in ComparedKeys(d) <==> StatedTwice(d, key)
    ensures ReportOf(d, hash).comparedClaims == |ComparedKeys(d)|
  {
    if StatedTwice(d, key) {
      StatedTwiceIsCompared(d, key);
      ComparedIsListed(d, key);
    }
    if key in ComparedKeys(d) {
      ComparedIsStatedTwice(d, key);
    }
  }

  lemma ComparedIsListed(d: Dispute, key: ClaimKey)
    requires IsCompared(d, key)
    ensures key in ClaimKeys(d)
  {
    var f, pages := PageCount(d.comparePointers, key), Pages(d);
    OccurrencesByPage(d, key);
    SumFacts(f, pages);
    var i :| 0 <= i < |pages| && f(pages[i]) > 0;
    ValuedKeyIsListed(Refs(pages[i]), d.comparePointers, key);
    if i > 0 {
      assert pages[i] == d.related[i - 1];
    }
  }

  // ----- What plays no part -----

  function DropFromSection(keep: SourceRef -> bool): Section -> Section {
    (s: Section) => Section(Filter(keep, s.refs))
  }

  /** The page with only the refs to keep. */
  function Drop(keep: SourceRef -> bool): Page -> Page {
    (p: Page) => if p.evidence.None? then p else Page(Some(Map(DropFromSection(keep), p.evidence.value)))
  }

  lemma {:induction false} DropRefs(keep: SourceRef -> bool, sections: seq<Section>)
    ensures Flatten(Map(SectionRefs, Map(DropFromSection(keep), sections))) == Filter(keep, Flatten(Map(SectionRefs, sections)))
  {
    if sections != [] {
      var front, last := sections[..|sections| - 1], sections[|sections| - 1];
      DropRefs(keep, front);
      MapPush(SectionRefs, front, last);
      MapPush(DropFromSection(keep), front, last);
      FrontLast(sections);
      var dropped := Map(DropFromSection(keep), front);
      MapPush(SectionRefs, dropped, DropFromSection(keep)(last));
      FlattenPush(Map(SectionRefs, front), last.refs);
      FlattenPush(Map(SectionRefs, dropped), Filter(keep, last.refs));
      FilterAppend(keep, Flatten(Map(SectionRefs, front)), last.refs);
    }
  }

  lemma MapPush<A, B>(f: A -> B, s: seq<A>, x: A)
    ensures Map(f, s + [x]) == Map(f, s) + [f(x)]
  {
  }

  lemma FlattenPush<T>(parts: seq<seq<T>>, part: seq<T>)
    ensures Flatten(parts + [part]) == Flatten(parts) + part
  {
    assert (parts + [part])[..|parts|] == parts;
  }

  lemma DropRefsOfPage(keep: SourceRef -> bool, p: Page)
    ensures Refs(Drop(keep)(p)) == Filter(keep, Refs(p))
  {
    if p.evidence.Some? {
      DropRefs(keep, p.evidence.value);
    }
  }

  function DropAll(keep: SourceRef -> bool, d: Dispute): Dispute {
    Dispute(Drop(keep)(d.candidate), Map(Drop(keep), d.related), d.comparePointers)
  }

  ghost predicate KeepsListed(keep: SourceRef -> bool, comparePointers: seq<string>) {
    forall r :: !keep(r) ==> !AtListedField(r.pointer, comparePointers)
  }

  lemma {:induction false} DropKeepsFailure(keep: SourceRef -> bool, refs: seq<SourceRef>, pointers: seq<string>)
    requires KeepsListed(keep, pointers)
    ensures FirstUnencodable(Filter(keep, refs), pointers) == FirstUnencodable(refs, pointers)
  {
    if refs != [] {
      var front, last := refs[..|refs| - 1], refs[|refs| - 1];
      DropKeepsFailure(keep, front, pointers);
      ComparableMeansListed(last.pointer, pointers);
      FrontLast(refs);
      FilterPush(keep, front, last);
      FirstUnencodableAppend(Filter(keep, front), [last], pointers);
      FirstUnencodableAppend(front, [last], pointers);
    }
  }

  lemma DropKeepsValues(keep: SourceRef -> bool, p: Page, pointers: seq<string>, key: ClaimKey)
    requires KeepsListed(keep, pointers)
    ensures Values(Refs(Drop(keep)(p)), pointers, key) == Values(Refs(p), pointers, key)
    ensures PageCount(pointers, key)(Drop(keep)(p)) == PageCount(pointers, key)(p)
  {
    DropRefsOfPage(keep, p);
    forall r | r in Refs(p) && Supports(r, key, pointers) ensures r in Filter(keep, Refs(p)) {
      ComparableMeansListed(r.pointer, pointers);
    }
  }

  lemma DropKeepsKeys(keep: SourceRef -> bool, p: Page, pointers: seq<string>)
    requires KeepsListed(keep, pointers)
    ensures Keys(Refs(Drop(keep)(p)), pointers) == Keys(Refs(p), pointers)
  {
    DropRefsOfPage(keep, p);
    forall r | r in Refs(p) && IsComparablePointer(r.pointer, pointers) ensures r in Filter(keep, Refs(p)) {
      ComparableMeansListed(r.pointer, pointers);
    }
  }

  /** Refs whose pointer is not listed, or not below `/fields/`, can be removed from any page
      without changing the report, nor whether and where arbitration fails. */
  lemma UnlistedRefsAreIgnored(d: Dispute, hash: Bytes -> Digest, keep: SourceRef -> bool)
    requires KeepsListed(keep, d.comparePointers)
    ensures ReportOf(DropAll(keep, d), hash) == ReportOf(d, hash)
    ensures FirstUnencodable(AllRefs(DropAll(keep, d)), d.comparePointers) == FirstUnencodable(AllRefs(d), d.comparePointers)
  {
    var e, ps := DropAll(keep, d), d.comparePointers;
    forall k ensures SameValues(e, d, k) {
      DropKeepsValues(keep, d.candidate, ps, k);
      DropKeepsRelated(keep, d.related, ps, k);
    }
    DropKeepsClaimKeys(keep, d);
    ReportDependsOnValues(e, d, hash);
    DropAllRefs(keep, d);
    DropKeepsFailure(keep, AllRefs(d), ps);
  }

  lemma {:induction false} DropKeepsRelated(keep: SourceRef -> bool, related: seq<Page>, pointers: seq<string>, key: ClaimKey)
    requires KeepsListed(keep, pointers)
    ensures RelatedValues(Map(Drop(keep), related), pointers, key) == RelatedValues(related, pointers, key)
    ensures SumBy(PageCount(pointers, key), Map(Drop(keep), related)) == SumBy(PageCount(pointers, key), related)
  {
    if related != [] {
      var front, last := related[..|related| - 1], related[|related| - 1];
      DropKeepsRelated(keep, front, pointers, key);
      DropKeepsValues(keep, last, pointers, key);
      FrontLast(related);
      MapPush(Drop(keep), front, last);
      RelatedValuesAppend(front, last, pointers, key);
      RelatedValuesAppend(Map(Drop(keep), front), Drop(keep)(last), pointers, key);
      SumByPush(PageCount(pointers, key), front, last);
      SumByPush(PageCount(pointers, key), Map(Drop(keep), front), Drop(keep)(last));
    }
  }

  lemma DropKeepsClaimKeys(keep: SourceRef -> bool, d: Dispute)
    requires KeepsListed(keep, d.comparePointers)
    ensures ClaimKeys(DropAll(keep, d)) == ClaimKeys(d)
  {
    var e, ps := DropAll(keep, d), d.comparePointers;
    DropKeepsKeys(keep, d.candidate, ps);
    forall k ensures k in ClaimKeys(e) <==> k in ClaimKeys(d) {
      if p :| p in d.related && k in Keys(Refs(p), ps) {
        var i :| 0 <= i < |d.related| && d.related[i] == p;
        DropKeepsKeys(keep, p, ps);
        assert e.related[i] in e.related;
      }
      if p :| p in e.related && k in Keys(Refs(p), ps) {
        var i :| 0 <= i < |e.related| && e.related[i] == p;
        DropKeepsKeys(keep, d.related[i], ps);
        assert d.related[i] in d.related;
      }
    }
  }

  lemma DropAllRefs(keep: SourceRef -> bool, d: Dispute)
    ensures AllRefs(DropAll(keep, d)) == Filter(keep, AllRefs(d))
  {
    DropRefsOfPage(keep, d.candidate);
    DropRelatedRefs(keep, d.related);
    FilterAppend(keep, Refs(d.candidate), Flatten(Map(Refs, d.related)));
  }

  lemma {:induction false} DropRelatedRefs(keep: SourceRef -> bool, related: seq<Page>)
    ensures Flatten(Map(Refs, Map(Drop(keep), related))) == Filter(keep, Flatten(Map(Refs, related)))
  {
    if related != [] {
      var front, last := related[..|related| - 1], related[|related| - 1];
      var dropped := Map(Drop(keep), front);
      DropRelatedRefs(keep, front);
      DropRefsOfPage(keep, last);
      FrontLast(related);
      MapPush(Drop(keep), front, last);
      MapPush(Refs, front, last);
      MapPush(Refs, dropped, Drop(keep)(last));
      FlattenPush(Map(Refs, front), Refs(last));
      FlattenPush(Map(Refs, dropped), Filter(keep, Refs(last)));
      FilterAppend(keep, Flatten(Map(Refs, front)), Refs(last));
    }
  }

  /** With an empty allowlist nothing is compared, and nothing can fail. */
  lemma NothingListedNothingCompared(d: Dispute, hash: Bytes -> Digest)
    requires d.comparePointers == []
    ensures FirstUnencodable(AllRefs(d), d.comparePointers).None?
    ensures ReportOf(d, hash) == Report(None, 0, [], |d.related|)
  {
    FailsIffNonFinite(AllRefs(d), d.comparePointers);
    forall r: SourceRef ensures !IsComparablePointer(r.pointer, d.comparePointers) {
      ComparableMeansListed(r.pointer, d.comparePointers);
    }
    assert ClaimKeys(d) == {};
    assert ComparedKeys(d) == {} && DivergentKeys(d) == {};
  }
}
