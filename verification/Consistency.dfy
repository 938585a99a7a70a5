/** What the source-ref consistency arbiter reports, stated over sets of canonical
    values per claim key, and the laws of that report. */
module Consistency {
  import opened Wrappers
  import opened Sequences
  import opened Orders
  import opened CanonicalJson
  import opened Reals

  datatype SourceRef = SourceRef(id: string, entityId: string, pointer: string, value: Json)

  datatype Section = Section(refs: seq<SourceRef>)

  /** A compiled page; a legacy page carries no evidence. */
  datatype Page = Page(evidence: Option<seq<Section>>)

  datatype ClaimKey = ClaimKey(entityId: string, pointer: string)

  /** One arbitration: the candidate, the related pages and the allowlist of pointers. */
  datatype Dispute = Dispute(candidate: Page, related: seq<Page>, comparePointers: seq<string>)

  type Digest = string

  datatype Finding = Finding(key: ClaimKey, candidateHash: Digest, evidenceHash: Digest)

  datatype Report = Report(score: Option<real>, comparedClaims: nat, findings: seq<Finding>, candidateCount: nat)

  /** A comparable ref whose value has no canonical form. */
  datatype Unencodable = Unencodable(id: string, pointer: string)

  const FIELDS_PREFIX := "/fields/"

  predicate IsComparablePointer(pointer: string, comparePointers: seq<string>) {
    |pointer| > |FIELDS_PREFIX| && FIELDS_PREFIX <= pointer && pointer in comparePointers
  }

  predicate KeyLt(a: ClaimKey, b: ClaimKey) {
    StringLt(a.entityId, b.entityId) || (a.entityId == b.entityId && StringLt(a.pointer, b.pointer))
  }

  lemma KeyLtTotal()
    ensures StrictTotal(KeyLt)
  {
    StringLtTotal();
  }

  function KeyOf(r: SourceRef): ClaimKey { ClaimKey(r.entityId, r.pointer) }

  function SectionRefs(s: Section): seq<SourceRef> { s.refs }

  function Refs(page: Page): seq<SourceRef> {
    if page.evidence.None? then [] else Flatten(Map(SectionRefs, page.evidence.value))
  }

  // ----- Failure -----

  /** The first comparable ref that cannot be encoded, in reading order. */
  function FirstUnencodable(refs: seq<SourceRef>, pointers: seq<string>): Option<Unencodable> {
    if refs == [] then None
    else
      var earlier, r := FirstUnencodable(refs[..|refs| - 1], pointers), refs[|refs| - 1];
      if earlier.Some? then earlier
      else if IsComparablePointer(r.pointer, pointers) && Canonical(r.value).None? then
        Some(Unencodable(r.id, r.pointer))
      else None
  }

  function AllRefs(d: Dispute): seq<SourceRef> { Refs(d.candidate) + Flatten(Map(Refs, d.related)) }

  lemma {:induction false} FirstUnencodableAppend(a: seq<SourceRef>, b: seq<SourceRef>, pointers: seq<string>)
    ensures FirstUnencodable(a + b, pointers) ==
            if FirstUnencodable(a, pointers).Some? then FirstUnencodable(a, pointers)
            else FirstUnencodable(b, pointers)
  {
    if b == [] {
      assert a + b == a;
    } else {
      FirstUnencodableAppend(a, b[..|b| - 1], pointers);
      assert (a + b)[..|a + b| - 1] == a + b[..|b| - 1];
    }
  }

  /** Arbitration fails exactly when some comparable ref holds a non-finite number. */
  lemma {:induction false} FailsIffNonFinite(refs: seq<SourceRef>, pointers: seq<string>)
    ensures FirstUnencodable(refs, pointers).Some? <==>
            exists r :: r in refs && IsComparablePointer(r.pointer, pointers) && !AllFinite(r.value)
  {
    if refs != [] {
      var front, last := refs[..|refs| - 1], refs[|refs| - 1];
      FailsIffNonFinite(front, pointers);
      EncodesIffFinite(last.value);
      assert refs == front + [last];
    }
  }

  // ----- The declarative report -----

  predicate Supports(r: SourceRef, key: ClaimKey, pointers: seq<string>) {
    IsComparablePointer(r.pointer, pointers) && KeyOf(r) == key
  }

  /** The distinct canonical values that a list of refs gives to a key. */
  ghost function Values(refs: seq<SourceRef>, pointers: seq<string>, key: ClaimKey): set<Bytes> {
    set r | r in refs && Supports(r, key, pointers) && Canonical(r.value).Some? :: Canonical(r.value).value
  }

  ghost function Keys(refs: seq<SourceRef>, pointers: seq<string>): set<ClaimKey> {
    set r | r in refs && IsComparablePointer(r.pointer, pointers) && Canonical(r.value).Some? :: KeyOf(r)
  }

  ghost function PageCount(pointers: seq<string>, key: ClaimKey): Page -> int {
    (p: Page) => |Values(Refs(p), pointers, key)|
  }

  ghost function CandidateValues(d: Dispute, key: ClaimKey): set<Bytes> {
    Values(Refs(d.candidate), d.comparePointers, key)
  }

  /** Per-page distinct values, summed over the candidate and the related pages. */
  ghost function Occurrences(d: Dispute, key: ClaimKey): int {
    |CandidateValues(d, key)| + SumBy(PageCount(d.comparePointers, key), d.related)
  }

  ghost function RelatedValues(related: seq<Page>, pointers: seq<string>, key: ClaimKey): set<Bytes> {
    set p, v | p in related && v in Values(Refs(p), pointers, key) :: v
  }

  ghost function GroupValues(d: Dispute, key: ClaimKey): set<Bytes> {
    CandidateValues(d, key) + RelatedValues(d.related, d.comparePointers, key)
  }

  ghost function ClaimKeys(d: Dispute): set<ClaimKey> {
    Keys(Refs(d.candidate), d.comparePointers) +
    set p, k | p in d.related && k in Keys(Refs(p), d.comparePointers) :: k
  }

  ghost predicate IsCompared(d: Dispute, key: ClaimKey) { Occurrences(d, key) >= 2 }

  ghost predicate IsDivergent(d: Dispute, key: ClaimKey) { |GroupValues(d, key)| >= 2 }

  ghost function ComparedKeys(d: Dispute): set<ClaimKey> { set k | k in ClaimKeys(d) && IsCompared(d, k) }

  ghost function DivergentKeys(d: Dispute): set<ClaimKey> { set k | k in ClaimKeys(d) && IsDivergent(d, k) }

  /** The candidate's least value, or the least of all when the candidate has none. */
  ghost function CandidateValue(d: Dispute, key: ClaimKey): (c: Bytes)
    requires IsDivergent(d, key)
    ensures c in GroupValues(d, key) && (CandidateValues(d, key) != {} ==> c in CandidateValues(d, key))
    ensures forall v :: v in CandidateValues(d, key) ==> v == c || BytesLt(c, v)
    ensures CandidateValues(d, key) == {} ==> forall v :: v in GroupValues(d, key) ==> v == c || BytesLt(c, v)
  {
    BytesLtTotal();
    if CandidateValues(d, key) != {} then Least(BytesLt, CandidateValues(d, key))
    else Least(BytesLt, GroupValues(d, key))
  }

  /** The least value of the group that differs from the candidate's. */
  ghost function EvidenceValue(d: Dispute, key: ClaimKey): (e: Bytes)
    requires IsDivergent(d, key)
    ensures e in GroupValues(d, key) && e != CandidateValue(d, key)
    ensures forall v :: v in GroupValues(d, key) && v != CandidateValue(d, key) ==> v == e || BytesLt(e, v)
  {
    BytesLtTotal();
    TwoElements(GroupValues(d, key), CandidateValue(d, key));
    Least(BytesLt, GroupValues(d, key) - {CandidateValue(d, key)})
  }

  lemma TwoElements<T>(s: set<T>, x: T)
    requires |s| >= 2
    ensures s - {x} != {}
  {
    if s - {x} == {} {
      SubsetSize(s, {x});
    }
  }

  ghost function FindingFor(d: Dispute, hash: Bytes -> Digest, key: ClaimKey): (f: Finding)
    ensures f.key == key
  {
    if IsDivergent(d, key) then Finding(key, hash(CandidateValue(d, key)), hash(EvidenceValue(d, key)))
    else Finding(key, "", "")
  }

  ghost function Findings(d: Dispute, hash: Bytes -> Digest, keys: seq<ClaimKey>): (r: seq<Finding>)
    ensures |r| == |keys| && forall i :: 0 <= i < |keys| ==> r[i] == FindingFor(d, hash, keys[i])
  {
    Map((k: ClaimKey) => FindingFor(d, hash, k), keys)
  }

  /** Claim keys in the order in which an ordered map visits them. */
  function SortedClaimKeys(keys: set<ClaimKey>): (r: seq<ClaimKey>)
    ensures |r| == |keys| && forall k :: k in r <==> k in keys
  {
    KeyLtTotal();
    Enumerate(KeyLt, keys)
  }

  lemma SortedClaimKeysAscend(keys: set<ClaimKey>)
    ensures forall i, j :: 0 <= i < j < |keys| ==> KeyLt(SortedClaimKeys(keys)[i], SortedClaimKeys(keys)[j])
  {
    KeyLtTotal();
    EnumerateAscends(KeyLt, keys);
  }

  ghost function ReportOf(d: Dispute, hash: Bytes -> Digest): Report {
    var compared, divergent := ComparedKeys(d), DivergentKeys(d);
    Report(
      if compared == {} then None else Some(|compared - divergent| as real / |compared| as real),
      |compared|,
      Findings(d, hash, SortedClaimKeys(divergent)),
      |d.related|)
  }

  lemma UnionCardinality<T>(a: set<T>, b: set<T>)
    ensures |a + b| <= |a| + |b|
  {
    assert a + b == a + (b - a);
    SubsetSize(b - a, b);
  }

  // ----- Laws of the report -----

  lemma {:induction false} OccurrencesBoundValues(related: seq<Page>, pointers: seq<string>, key: ClaimKey)
    ensures |RelatedValues(related, pointers, key)| <= SumBy(PageCount(pointers, key), related)
  {
    if related != [] {
      var front, last := related[..|related| - 1], related[|related| - 1];
      OccurrencesBoundValues(front, pointers, key);
      assert related == front + [last];
      assert RelatedValues(related, pointers, key) ==
             RelatedValues(front, pointers, key) + Values(Refs(last), pointers, key);
      UnionCardinality(RelatedValues(front, pointers, key), Values(Refs(last), pointers, key));
    } else {
      assert RelatedValues(related, pointers, key) == {};
    }
  }

  lemma ValuedKeyIsListed(refs: seq<SourceRef>, pointers: seq<string>, key: ClaimKey)
    requires Values(refs, pointers, key) != {}
    ensures key in Keys(refs, pointers)
  {
    var v :| v in Values(refs, pointers, key);
    var r :| r in refs && Supports(r, key, pointers) && Canonical(r.value) == Some(v);
  }

  lemma GroupedKeyIsListed(d: Dispute, key: ClaimKey)
    requires GroupValues(d, key) != {}
    ensures key in ClaimKeys(d)
  {
    if CandidateValues(d, key) != {} {
      ValuedKeyIsListed(Refs(d.candidate), d.comparePointers, key);
    } else {
      var v :| v in RelatedValues(d.related, d.comparePointers, key);
      var p :| p in d.related && v in Values(Refs(p), d.comparePointers, key);
      ValuedKeyIsListed(Refs(p), d.comparePointers, key);
    }
  }

  /** A divergent key is always a compared one. */
  lemma DivergentIsCompared(d: Dispute, key: ClaimKey)
    requires IsDivergent(d, key)
    ensures IsCompared(d, key) && key in ClaimKeys(d)
  {
    OccurrencesBoundValues(d.related, d.comparePointers, key);
    UnionCardinality(CandidateValues(d, key), RelatedValues(d.related, d.comparePointers, key));
    GroupedKeyIsListed(d, key);
  }

  lemma ComparedSplits(d: Dispute)
    ensures DivergentKeys(d) <= ComparedKeys(d)
    ensures |ComparedKeys(d)| == |ComparedKeys(d) - DivergentKeys(d)| + |DivergentKeys(d)|
  {
    forall k | k in DivergentKeys(d) ensures k in ComparedKeys(d) { DivergentIsCompared(d, k); }
    var equal := ComparedKeys(d) - DivergentKeys(d);
    assert ComparedKeys(d) == equal + DivergentKeys(d);
  }

  /** Every compared claim is either equal or a finding, and the score is the share of
      equal ones: 1 exactly when something was compared and nothing diverged. */
  lemma ScoreShape(d: Dispute, hash: Bytes -> Digest)
    ensures var r := ReportOf(d, hash);
            && |r.findings| <= r.comparedClaims
            && (r.score.None? <==> r.comparedClaims == 0)
            && (r.score == Some(1.0) <==> r.comparedClaims > 0 && r.findings == [])
            && (r.score.Some? ==> ShareOf(r.score.value, r.comparedClaims - |r.findings|, r.comparedClaims))
  {
    ComparedSplits(d);
    var r, compared, divergent := ReportOf(d, hash), ComparedKeys(d), DivergentKeys(d);
    assert |r.findings| == |divergent|;
    if r.score.Some? {
      QuotientFacts(|compared - divergent|, |compared|);
    }
  }

  /** A share between 0 and 1 that, times the total, gives the part. */
  ghost predicate ShareOf(share: real, part: int, total: int) {
    0.0 <= share <= 1.0 && share * total as real == part as real
  }

  /** The findings stand for the divergent keys, one each, in strictly ascending order. */
  lemma FindingsShape(d: Dispute, hash: Bytes -> Digest, key: ClaimKey)
    ensures |ReportOf(d, hash).findings| == |DivergentKeys(d)|
    ensures FindingsAscend(ReportOf(d, hash).findings)
    ensures key in DivergentKeys(d) <==> FindingFor(d, hash, key) in ReportOf(d, hash).findings
  {
    FindingsFollowKeys(d, hash, SortedClaimKeys(DivergentKeys(d)), key);
    SortedClaimKeysAscend(DivergentKeys(d));
  }

  ghost predicate FindingsAscend(findings: seq<Finding>) {
    forall i, j :: 0 <= i < j < |findings| ==> KeyLt(findings[i].key, findings[j].key)
  }

  lemma FindingsFollowKeys(d: Dispute, hash: Bytes -> Digest, keys: seq<ClaimKey>, key: ClaimKey)
    ensures key in keys <==> FindingFor(d, hash, key) in Findings(d, hash, keys)
  {
    var findings := Findings(d, hash, keys);
    if key in keys {
      var i :| 0 <= i < |keys| && keys[i] == key;
      assert findings[i] == FindingFor(d, hash, key);
    }
    if FindingFor(d, hash, key) in findings {
      var i :| 0 <= i < |findings| && findings[i] == FindingFor(d, hash, key);
      assert keys[i] == findings[i].key == key;
    }
  }

  lemma QuotientFacts(part: nat, total: nat)
    requires part <= total && total > 0
    ensures var share := part as real / total as real;
            ShareOf(share, part, total) && (share == 1.0 <==> part == total)
  {
    QuotientTimes(part as real, total as real);
    QuotientNonNegative(part as real, total as real);
    QuotientBound(part as real, total as real);
    QuotientOfSame(total as real);
    if part < total {
      QuotientNotOne(part as real, total as real);
    }
  }

  lemma QuotientNotOne(p: real, t: real)
    requires t != 0.0 && p != t
    ensures p / t != 1.0
  {
    QuotientTimes(p, t);
  }

  /** Two disputes whose keys carry the same values the same number of times get the
      same findings, counts and score. */
  lemma ReportDependsOnValues(d: Dispute, e: Dispute, hash: Bytes -> Digest)
    requires |d.related| == |e.related| && ClaimKeys(d) == ClaimKeys(e)
    requires forall k :: SameValues(d, e, k)
    ensures ReportOf(d, hash) == ReportOf(e, hash)
  {
    forall k
      ensures IsCompared(d, k) == IsCompared(e, k) && IsDivergent(d, k) == IsDivergent(e, k)
      ensures FindingFor(d, hash, k) == FindingFor(e, hash, k)
    {
      assert SameValues(d, e, k);
    }
    assert ComparedKeys(d) == ComparedKeys(e) && DivergentKeys(d) == DivergentKeys(e);
    var keys := SortedClaimKeys(DivergentKeys(d));
    assert Findings(d, hash, keys) == Findings(e, hash, keys);
  }

  ghost predicate SameValues(d: Dispute, e: Dispute, key: ClaimKey) {
    && CandidateValues(d, key) == CandidateValues(e, key)
    && GroupValues(d, key) == GroupValues(e, key)
    && Occurrences(d, key) == Occurrences(e, key)
  }

  /** The order of the related pages is irrelevant. */
  lemma ReportIgnoresPageOrder(d: Dispute, related: seq<Page>, hash: Bytes -> Digest)
    requires multiset(related) == multiset(d.related)
    ensures ReportOf(d, hash) == ReportOf(d.(related := related), hash)
    ensures FirstUnencodable(AllRefs(d), d.comparePointers).Some? <==>
            FirstUnencodable(AllRefs(d.(related := related)), d.comparePointers).Some?
  {
    var e := d.(related := related);
    assert |multiset(related)| == |multiset(d.related)|;
    assert forall p :: p in related <==> p in multiset(related);
    assert forall p :: p in d.related <==> p in multiset(d.related);
    assert forall p :: p in related <==> p in d.related;
    forall k ensures SameValues(d, e, k) {
      assert RelatedValues(d.related, d.comparePointers, k) == RelatedValues(related, d.comparePointers, k);
      SumByPermutation(PageCount(d.comparePointers, k), d.related, related);
    }
    assert ClaimKeys(d) == ClaimKeys(e);
    ReportDependsOnValues(d, e, hash);
    AllRefsMembers(d);
    AllRefsMembers(e);
    FailsIffNonFinite(AllRefs(d), d.comparePointers);
    FailsIffNonFinite(AllRefs(e), d.comparePointers);
  }

  lemma {:induction false} FlattenMembers<T(!new)>(parts: seq<seq<T>>, x: T)
    ensures x in Flatten(parts) <==> exists part :: part in parts && x in part
  {
    if parts != [] {
      var front, last := parts[..|parts| - 1], parts[|parts| - 1];
      FlattenMembers(front, x);
      assert parts == front + [last];
    }
  }

  lemma AllRefsMembers(d: Dispute)
    ensures forall r :: r in AllRefs(d) <==> r in Refs(d.candidate) || exists p :: p in d.related && r in Refs(p)
  {
    forall r ensures r in Flatten(Map(Refs, d.related)) <==> exists p :: p in d.related && r in Refs(p) {
      var parts := Map(Refs, d.related);
      FlattenMembers(parts, r);
      if part :| part in parts && r in part {
        var i :| 0 <= i < |parts| && parts[i] == part;
        assert d.related[i] in d.related;
      }
      if p :| p in d.related && r in Refs(p) {
        assert Refs(p) in parts;
      }
    }
  }

  ghost predicate SameRefs(p: Page, q: Page) {
    forall r :: r in Refs(p) <==> r in Refs(q)
  }

  /** Permuting, repeating or regrouping refs and sections inside a page changes nothing. */
  lemma ReportIgnoresRefOrder(d: Dispute, e: Dispute, hash: Bytes -> Digest)
    requires d.comparePointers == e.comparePointers && SameRefs(d.candidate, e.candidate)
    requires |d.related| == |e.related|
    requires forall i :: 0 <= i < |d.related| ==> SameRefs(d.related[i], e.related[i])
    ensures ReportOf(d, hash) == ReportOf(e, hash)
    ensures FirstUnencodable(AllRefs(d), d.comparePointers).Some? <==>
            FirstUnencodable(AllRefs(e), e.comparePointers).Some?
  {
    var ps := d.comparePointers;
    SameRefsFailAlike(d, e);
    forall k ensures SameValues(d, e, k) {
      assert CandidateValues(d, k) == CandidateValues(e, k);
      CountsAgree(d.related, e.related, ps, k);
    }
    KeysAgree(d.related, e.related, ps);
    assert Keys(Refs(d.candidate), ps) == Keys(Refs(e.candidate), ps);
    ReportDependsOnValues(d, e, hash);
  }

  lemma SameRefsFailAlike(d: Dispute, e: Dispute)
    requires d.comparePointers == e.comparePointers && SameRefs(d.candidate, e.candidate)
    requires |d.related| == |e.related|
    requires forall i :: 0 <= i < |d.related| ==> SameRefs(d.related[i], e.related[i])
    ensures FirstUnencodable(AllRefs(d), d.comparePointers).Some? <==>
            FirstUnencodable(AllRefs(e), e.comparePointers).Some?
  {
    RefsCarryOver(d, e);
    RefsCarryOver(e, d);
    FailsIffNonFinite(AllRefs(d), d.comparePointers);
    FailsIffNonFinite(AllRefs(e), e.comparePointers);
  }

  lemma RefsCarryOver(d: Dispute, e: Dispute)
    requires SameRefs(d.candidate, e.candidate) && |d.related| == |e.related|
    requires forall i :: 0 <= i < |d.related| ==> SameRefs(d.related[i], e.related[i])
    ensures forall r :: r in AllRefs(d) ==> r in AllRefs(e)
  {
    AllRefsMembers(d);
    AllRefsMembers(e);
    forall r | r in AllRefs(d) ensures r in AllRefs(e) {
      if r !in Refs(d.candidate) {
        var p :| p in d.related && r in Refs(p);
        var i :| 0 <= i < |d.related| && d.related[i] == p;
        assert SameRefs(d.related[i], e.related[i]);
        assert e.related[i] in e.related && r in Refs(e.related[i]);
      }
    }
  }

  lemma {:induction false} CountsAgree(a: seq<Page>, b: seq<Page>, pointers: seq<string>, key: ClaimKey)
    requires |a| == |b| && forall i :: 0 <= i < |a| ==> SameRefs(a[i], b[i])
    ensures SumBy(PageCount(pointers, key), a) == SumBy(PageCount(pointers, key), b)
    ensures RelatedValues(a, pointers, key) == RelatedValues(b, pointers, key)
  {
    if a != [] {
      var m := |a| - 1;
      CountsAgree(a[..m], b[..m], pointers, key);
      SameRefsSameValues(a[m], b[m], pointers, key);
      FrontLast(a);
      FrontLast(b);
      RelatedValuesAppend(a[..m], a[m], pointers, key);
      RelatedValuesAppend(b[..m], b[m], pointers, key);
    }
  }

  lemma SameRefsSameValues(p: Page, q: Page, pointers: seq<string>, key: ClaimKey)
    requires SameRefs(p, q)
    ensures Values(Refs(p), pointers, key) == Values(Refs(q), pointers, key)
    ensures PageCount(pointers, key)(p) == PageCount(pointers, key)(q)
  {
  }

  lemma RelatedValuesAppend(related: seq<Page>, p: Page, pointers: seq<string>, key: ClaimKey)
    ensures RelatedValues(related + [p], pointers, key) ==
            RelatedValues(related, pointers, key) + Values(Refs(p), pointers, key)
  {
    assert forall q :: q in related + [p] <==> q in related || q == p;
  }

  /** One more related page adds its values to each group and as many occurrences. */
  lemma PagePush(d: Dispute, page: Page, key: ClaimKey)
    ensures var e, values := d.(related := d.related + [page]), Values(Refs(page), d.comparePointers, key);
            && CandidateValues(e, key) == CandidateValues(d, key)
            && GroupValues(e, key) == GroupValues(d, key) + values
            && Occurrences(e, key) == Occurrences(d, key) + |values|
  {
    RelatedValuesAppend(d.related, page, d.comparePointers, key);
    SumByPush(PageCount(d.comparePointers, key), d.related, page);
  }

  lemma KeysAgree(a: seq<Page>, b: seq<Page>, pointers: seq<string>)
    requires |a| == |b| && forall i :: 0 <= i < |a| ==> SameRefs(a[i], b[i])
    ensures (set p, k | p in a && k in Keys(Refs(p), pointers) :: k) ==
            (set p, k | p in b && k in Keys(Refs(p), pointers) :: k)
  {
    forall i | 0 <= i < |a| ensures Keys(Refs(a[i]), pointers) == Keys(Refs(b[i]), pointers) {
      assert SameRefs(a[i], b[i]);
    }
  }

  /** One more related page never lowers the number of compared claims and never makes
      a divergence disappear. */
  lemma MorePagesOnlyAdd(d: Dispute, p: Page, hash: Bytes -> Digest)
    ensures var e := d.(related := d.related + [p]);
            && ComparedKeys(d) <= ComparedKeys(e) && DivergentKeys(d) <= DivergentKeys(e)
            && ReportOf(d, hash).comparedClaims <= ReportOf(e, hash).comparedClaims
            && |ReportOf(d, hash).findings| <= |ReportOf(e, hash).findings|
  {
    var e, ps := d.(related := d.related + [p]), d.comparePointers;
    assert ClaimKeys(d) <= ClaimKeys(e);
    forall k
      ensures IsCompared(d, k) ==> IsCompared(e, k)
      ensures IsDivergent(d, k) ==> IsDivergent(e, k)
    {
      SumByAppend(PageCount(ps, k), d.related, [p]);
      assert [p][..0] == [];
      RelatedValuesAppend(d.related, p, ps, k);
      SubsetSize(GroupValues(d, k), GroupValues(e, k));
    }
    SubsetSize(ComparedKeys(d), ComparedKeys(e));
    SubsetSize(DivergentKeys(d), DivergentKeys(e));
  }

  /** A key diverges exactly when two comparable refs of the pages give it different
      JSON values. */
  lemma DivergentIffValuesDiffer(d: Dispute, key: ClaimKey)
    requires FirstUnencodable(AllRefs(d), d.comparePointers).None?
    requires forall r :: r in AllRefs(d) ==> Fits(r.value)
    ensures IsDivergent(d, key) <==>
            exists r, q :: r in AllRefs(d) && q in AllRefs(d) && Supports(r, key, d.comparePointers)
                           && Supports(q, key, d.comparePointers) && r.value != q.value
  {
    GroupIsAllValues(d, key);
    EncodableMembers(AllRefs(d), d.comparePointers);
    if IsDivergent(d, key) {
      TwoValuesTwoRefs(AllRefs(d), d.comparePointers, key);
    }
    if r, q :| r in AllRefs(d) && q in AllRefs(d) && Supports(r, key, d.comparePointers)
                           && Supports(q, key, d.comparePointers) && r.value != q.value {
      TwoRefsTwoValues(AllRefs(d), d.comparePointers, key, r, q);
    }
  }

  lemma TwoRefsTwoValues(refs: seq<SourceRef>, pointers: seq<string>, key: ClaimKey, r: SourceRef, q: SourceRef)
    requires r in refs && q in refs && Supports(r, key, pointers) && Supports(q, key, pointers)
    requires Fits(r.value) && Fits(q.value) && Canonical(r.value).Some? && Canonical(q.value).Some?
    requires r.value != q.value
    ensures |Values(refs, pointers, key)| >= 2
  {
    CanonicalEqualIffSameValue(r.value, q.value);
    var pair := {Canonical(r.value).value, Canonical(q.value).value};
    SubsetSize(pair, Values(refs, pointers, key));
  }

  lemma TwoValuesTwoRefs(refs: seq<SourceRef>, pointers: seq<string>, key: ClaimKey)
    requires |Values(refs, pointers, key)| >= 2
    ensures exists r, q :: r in refs && q in refs && Supports(r, key, pointers)
                           && Supports(q, key, pointers) && r.value != q.value
  {
    var values := Values(refs, pointers, key);
    var v :| v in values;
    TwoElements(values, v);
    var w :| w in values - {v};
    var r :| r in refs && Supports(r, key, pointers) && Canonical(r.value) == Some(v);
    var q :| q in refs && Supports(q, key, pointers) && Canonical(q.value) == Some(w);
    assert r.value != q.value;
  }

  lemma {:induction false} EncodableMembers(refs: seq<SourceRef>, pointers: seq<string>)
    requires FirstUnencodable(refs, pointers).None?
    ensures forall r :: r in refs && IsComparablePointer(r.pointer, pointers) ==> Canonical(r.value).Some?
  {
    if refs != [] {
      EncodableMembers(refs[..|refs| - 1], pointers);
      assert refs == refs[..|refs| - 1] + [refs[|refs| - 1]];
    }
  }

  lemma GroupIsAllValues(d: Dispute, key: ClaimKey)
    ensures GroupValues(d, key) == Values(AllRefs(d), d.comparePointers, key)
  {
    AllRefsMembers(d);
    var all := Values(AllRefs(d), d.comparePointers, key);
    forall v | v in all ensures v in GroupValues(d, key) {
      var r :| r in AllRefs(d) && Supports(r, key, d.comparePointers) && Canonical(r.value) == Some(v);
      assert r in Refs(d.candidate) ==> Canonical(r.value).value in CandidateValues(d, key);
      if r !in Refs(d.candidate) {
        var p :| p in d.related && r in Refs(p);
        assert Canonical(r.value).value in Values(Refs(p), d.comparePointers, key);
      }
    }
    forall v | v in GroupValues(d, key) ensures v in all {
      if v !in CandidateValues(d, key) {
        var p :| p in d.related && v in Values(Refs(p), d.comparePointers, key);
      }
    }
  }
}
