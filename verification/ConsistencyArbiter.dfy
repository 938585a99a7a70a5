/** The arbiter's loops over pages, sections, refs and groups, proved to compute the
    declarative report. */
module ConsistencyArbiter {
  import opened Wrappers
  import opened Sequences
  import opened Orders
  import opened CanonicalJson
  import opened Consistency

  /** One value seen under a key, and whether the candidate page gave it. */
  datatype Occurrence = Occurrence(value: Bytes, fromCandidate: bool)

  type Groups = map<ClaimKey, seq<Occurrence>>

  type PageValues = map<ClaimKey, set<Bytes>>

  function At<K, V>(m: map<K, seq<V>>, key: K): seq<V> {
    if key in m then m[key] else []
  }

  function Mark(values: seq<Bytes>, fromCandidate: bool): (r: seq<Occurrence>)
    ensures |r| == |values| && forall i :: 0 <= i < |r| ==> r[i] == Occurrence(values[i], fromCandidate)
  {
    seq(|values|, i requires 0 <= i < |values| => Occurrence(values[i], fromCandidate))
  }

  /** A set of canonical values in ascending order. */
  function Sorted(values: set<Bytes>): (r: seq<Bytes>)
    ensures |r| == |values| && forall v :: v in r <==> v in values
  {
    BytesLtTotal();
    Enumerate(BytesLt, values)
  }

  // ----- The groups, as a function of the pages -----

  /** `before` with the entries of `extra` appended under the given keys. */
  ghost function Merged<K, V>(before: map<K, seq<V>>, extra: map<K, seq<V>>, keys: set<K>): map<K, seq<V>> {
    map k | k in before.Keys + keys :: if k in keys then At(before, k) + At(extra, k) else before[k]
  }

  lemma MergedStep<K, V>(before: map<K, seq<V>>, extra: map<K, seq<V>>, keys: set<K>, key: K)
    requires key !in keys
    ensures var m := Merged(before, extra, keys);
            Merged(before, extra, keys + {key}) == m[key := At(m, key) + At(extra, key)]
  {
  }

  function Additions(perPage: PageValues, fromCandidate: bool): Groups {
    map k | k in perPage :: Mark(Sorted(perPage[k]), fromCandidate)
  }

  /** A page's distinct values per key. */
  ghost function ValuesOf(page: Page, pointers: seq<string>): PageValues {
    map k | k in Keys(Refs(page), pointers) :: Values(Refs(page), pointers, k)
  }

  /** The groups after one page has been collected. */
  ghost function AddPage(groups: Groups, page: Page, fromCandidate: bool, pointers: seq<string>): Groups {
    var perPage := ValuesOf(page, pointers);
    Merged(groups, Additions(perPage, fromCandidate), perPage.Keys)
  }

  ghost function AllGroups(candidate: Page, related: seq<Page>, pointers: seq<string>): Groups {
    if related == [] then AddPage(map[], candidate, true, pointers)
    else AddPage(AllGroups(candidate, related[..|related| - 1], pointers), related[|related| - 1], false, pointers)
  }

  lemma AddPageAt(groups: Groups, page: Page, fromCandidate: bool, pointers: seq<string>, key: ClaimKey)
    ensures var after := AddPage(groups, page, fromCandidate, pointers);
            && (key in after <==> key in groups || key in Keys(Refs(page), pointers))
            && At(after, key) == At(groups, key) + Mark(Sorted(Values(Refs(page), pointers, key)), fromCandidate)
  {
    if key !in Keys(Refs(page), pointers) && Values(Refs(page), pointers, key) != {} {
      ValuedKeyIsListed(Refs(page), pointers, key);
    }
  }

  ghost function Seen(group: seq<Occurrence>): set<Bytes> { set o | o in group :: o.value }

  ghost function SeenOnCandidate(group: seq<Occurrence>): set<Bytes> {
    set o | o in group && o.fromCandidate :: o.value
  }

  lemma SeenConcat(a: seq<Occurrence>, b: seq<Occurrence>)
    ensures Seen(a + b) == Seen(a) + Seen(b)
    ensures SeenOnCandidate(a + b) == SeenOnCandidate(a) + SeenOnCandidate(b)
  {
    assert forall o :: o in a + b <==> o in a || o in b;
  }

  lemma SeenMarked(values: set<Bytes>, fromCandidate: bool)
    ensures Seen(Mark(Sorted(values), fromCandidate)) == values
    ensures SeenOnCandidate(Mark(Sorted(values), fromCandidate)) == if fromCandidate then values else {}
  {
    var sorted := Sorted(values);
    var added := Mark(sorted, fromCandidate);
    forall v | v in values ensures Occurrence(v, fromCandidate) in added {
      var i :| 0 <= i < |sorted| && sorted[i] == v;
      assert added[i] == Occurrence(v, fromCandidate);
    }
    assert forall o :: o in added ==> o.fromCandidate == fromCandidate && o.value in values;
  }

  /** A key's group holds one occurrence per page and distinct value. */
  ghost predicate GroupHolds(group: seq<Occurrence>, d: Dispute, key: ClaimKey) {
    && |group| == Occurrences(d, key)
    && Seen(group) == GroupValues(d, key)
    && SeenOnCandidate(group) == CandidateValues(d, key)
  }

  lemma {:induction false} GroupFacts(candidate: Page, related: seq<Page>, pointers: seq<string>, key: ClaimKey)
    ensures GroupHolds(At(AllGroups(candidate, related, pointers), key), Dispute(candidate, related, pointers), key)
  {
    if related == [] {
      AddPageAt(map[], candidate, true, pointers, key);
      GroupBase(Dispute(candidate, [], pointers), key);
    } else {
      var front, last := related[..|related| - 1], related[|related| - 1];
      GroupFacts(candidate, front, pointers, key);
      AddPageAt(AllGroups(candidate, front, pointers), last, false, pointers, key);
      FrontLast(related);
      GroupStep(At(AllGroups(candidate, front, pointers), key), Dispute(candidate, front, pointers), last, key);
    }
  }

  lemma GroupBase(d: Dispute, key: ClaimKey)
    requires d.related == []
    ensures GroupHolds([] + Mark(Sorted(CandidateValues(d, key)), true), d, key)
  {
    var group := Mark(Sorted(CandidateValues(d, key)), true);
    assert [] + group == group;
    SeenMarked(CandidateValues(d, key), true);
    assert RelatedValues([], d.comparePointers, key) == {};
  }

  lemma GroupStep(group: seq<Occurrence>, d: Dispute, page: Page, key: ClaimKey)
    requires GroupHolds(group, d, key)
    ensures GroupHolds(group + Mark(Sorted(Values(Refs(page), d.comparePointers, key)), false),
                       d.(related := d.related + [page]), key)
  {
    PagePush(d, page, key);
    MarkedPush(group, Values(Refs(page), d.comparePointers, key));
  }

  lemma MarkedPush(group: seq<Occurrence>, values: set<Bytes>)
    ensures var grown := group + Mark(Sorted(values), false);
            && |grown| == |group| + |values|
            && Seen(grown) == Seen(group) + values && SeenOnCandidate(grown) == SeenOnCandidate(group)
  {
    SeenMarked(values, false);
    SeenConcat(group, Mark(Sorted(values), false));
  }

  lemma {:induction false} GroupKeysFact(candidate: Page, related: seq<Page>, pointers: seq<string>, key: ClaimKey)
    ensures key in AllGroups(candidate, related, pointers) <==>
            key in ClaimKeys(Dispute(candidate, related, pointers))
  {
    if related == [] {
      AddPageAt(map[], candidate, true, pointers, key);
    } else {
      var front, last := related[..|related| - 1], related[|related| - 1];
      FrontLast(related);
      GroupKeysFact(candidate, front, pointers, key);
      AddPageAt(AllGroups(candidate, front, pointers), last, false, pointers, key);
    }
  }

  // ----- Collecting one page -----

  /** What the per-page table holds once `done` has been read. */
  ghost predicate PageTable(table: PageValues, done: seq<SourceRef>, pointers: seq<string>) {
    && table.Keys == Keys(done, pointers)
    && forall k :: k in table ==> table[k] == Values(done, pointers, k)
  }

  lemma PageTableStep(table: PageValues, done: seq<SourceRef>, pointers: seq<string>, r: SourceRef)
    requires PageTable(table, done, pointers)
    ensures !IsComparablePointer(r.pointer, pointers) ==> PageTable(table, done + [r], pointers)
    ensures IsComparablePointer(r.pointer, pointers) && Canonical(r.value).Some? ==>
              var k, seen := KeyOf(r), if KeyOf(r) in table then table[KeyOf(r)] else {};
              PageTable(table[k := seen + {Canonical(r.value).value}], done + [r], pointers)
  {
    assert forall q :: q in done + [r] <==> q in done || q == r;
    if !IsComparablePointer(r.pointer, pointers) {
      assert Keys(done + [r], pointers) == Keys(done, pointers);
      forall k ensures Values(done + [r], pointers, k) == Values(done, pointers, k) {
      }
    } else if Canonical(r.value).Some? {
      var k := KeyOf(r);
      assert Keys(done + [r], pointers) == Keys(done, pointers) + {k};
      assert Values(done + [r], pointers, k) == Values(done, pointers, k) + {Canonical(r.value).value};
      if k !in table && Values(done, pointers, k) != {} {
        ValuedKeyIsListed(done, pointers, k);
      }
      forall j | j != k ensures Values(done + [r], pointers, j) == Values(done, pointers, j) {
      }
    }
  }

  method ReadRefs(refs: seq<SourceRef>, pointers: seq<string>, before: PageValues, ghost done: seq<SourceRef>)
    returns (outcome: Result<PageValues, Unencodable>)
    requires PageTable(before, done, pointers)
    ensures outcome.Success? ==> FirstUnencodable(refs, pointers).None? && PageTable(outcome.value, done + refs, pointers)
    ensures outcome.Failure? ==> FirstUnencodable(refs, pointers) == Some(outcome.error)
  {
    var perPage := before;
    assert done + refs[..0] == done;
    for j := 0 to |refs|
      invariant FirstUnencodable(refs[..j], pointers).None?
      invariant PageTable(perPage, done + refs[..j], pointers)
    {
      var r := refs[j];
      ReadOne(refs, j, pointers);
      ReadMore(perPage, done, refs, j, pointers);
      if IsComparablePointer(r.pointer, pointers) {
        var bytes := Canonical(r.value);
        if bytes.None? {
          return Failure(Unencodable(r.id, r.pointer));
        }
        var seen := if KeyOf(r) in perPage then perPage[KeyOf(r)] else {};
        perPage := perPage[KeyOf(r) := seen + {bytes.value}];
      }
    }
    TakeAll(refs);
    return Success(perPage);
  }

  /** The next ref is the first unencodable one, or there is still none. */
  lemma ReadOne(refs: seq<SourceRef>, j: nat, pointers: seq<string>)
    requires j < |refs| && FirstUnencodable(refs[..j], pointers).None?
    ensures var bad := IsComparablePointer(refs[j].pointer, pointers) && Canonical(refs[j].value).None?;
            && (bad ==> FirstUnencodable(refs, pointers) == Some(Unencodable(refs[j].id, refs[j].pointer)))
            && (!bad ==> FirstUnencodable(refs[..j + 1], pointers).None?)
  {
    TakeStep(refs, j);
    FirstUnencodableAppend(refs[..j + 1], refs[j + 1..], pointers);
    assert refs == refs[..j + 1] + refs[j + 1..];
  }

  lemma ReadMore(table: PageValues, done: seq<SourceRef>, refs: seq<SourceRef>, j: nat, pointers: seq<string>)
    requires j < |refs| && PageTable(table, done + refs[..j], pointers)
    ensures var r, more := refs[j], done + refs[..j + 1];
            && (!IsComparablePointer(r.pointer, pointers) ==> PageTable(table, more, pointers))
            && (IsComparablePointer(r.pointer, pointers) && Canonical(r.value).Some? ==>
                  var k, seen := KeyOf(r), if KeyOf(r) in table then table[KeyOf(r)] else {};
                  PageTable(table[k := seen + {Canonical(r.value).value}], more, pointers))
  {
    PageTableStep(table, done + refs[..j], pointers, refs[j]);
    TakeStep(refs, j);
    AppendAssociates(done, refs[..j], [refs[j]]);
  }

  method ReadSections(sections: seq<Section>, pointers: seq<string>) returns (outcome: Result<PageValues, Unencodable>)
    ensures var refs := Flatten(Map(SectionRefs, sections));
            && (outcome.Success? ==> FirstUnencodable(refs, pointers).None? && PageTable(outcome.value, refs, pointers))
            && (outcome.Failure? ==> FirstUnencodable(refs, pointers) == Some(outcome.error))
  {
    var perPage: PageValues := map[];
    for i := 0 to |sections|
      invariant FirstUnencodable(Flatten(Map(SectionRefs, sections[..i])), pointers).None?
      invariant PageTable(perPage, Flatten(Map(SectionRefs, sections[..i])), pointers)
    {
      ghost var done := Flatten(Map(SectionRefs, sections[..i]));
      var read := ReadRefs(sections[i].refs, pointers, perPage, done);
      FlattenStep(sections, i);
      FirstUnencodableAppend(done, sections[i].refs, pointers);
      if read.Failure? {
        FirstUnencodableAppend(done + sections[i].refs, Flatten(Map(SectionRefs, sections[i + 1..])), pointers);
        return Failure(read.error);
      }
      perPage := read.value;
    }
    TakeAll(sections);
    return Success(perPage);
  }

  lemma FlattenStep(sections: seq<Section>, i: nat)
    requires i < |sections|
    ensures Flatten(Map(SectionRefs, sections[..i + 1])) == Flatten(Map(SectionRefs, sections[..i])) + sections[i].refs
    ensures Flatten(Map(SectionRefs, sections)) ==
            Flatten(Map(SectionRefs, sections[..i])) + sections[i].refs + Flatten(Map(SectionRefs, sections[i + 1..]))
  {
    var parts := Map(SectionRefs, sections[..i + 1]);
    assert parts[..i] == Map(SectionRefs, sections[..i]);
    var rest := Map(SectionRefs, sections[i + 1..]);
    assert Map(SectionRefs, sections) == parts + rest;
    FlattenAppend(parts, rest);
  }

  /** Appends each key's new entries to its group. The keys may come in any order. */
  method MergeInto<K, V>(before: map<K, seq<V>>, extra: map<K, seq<V>>) returns (groups: map<K, seq<V>>)
    ensures groups == Merged(before, extra, extra.Keys)
  {
    groups := before;
    var rest := extra.Keys;
    ghost var done: set<K> := {};
    while rest != {}
      invariant done + rest == extra.Keys && done !! rest
      invariant groups == Merged(before, extra, done)
    {
      var key :| key in rest;
      MergedStep(before, extra, done, key);
      var group := PushAll(At(groups, key), extra[key]);
      groups := groups[key := group];
      MoveOne(done, rest, key);
      rest := rest - {key};
      done := done + {key};
    }
  }

  method PushAll<V>(group: seq<V>, values: seq<V>) returns (longer: seq<V>)
    ensures longer == group + values
  {
    longer := group;
    for j := 0 to |values|
      invariant longer == group + values[..j]
    {
      longer := longer + [values[j]];
    }
    TakeAll(values);
  }

  lemma MoveOne<K>(done: set<K>, rest: set<K>, key: K)
    requires key in rest && done !! rest
    ensures (done + {key}) + (rest - {key}) == done + rest && (done + {key}) !! (rest - {key})
  {
  }

  method CollectPageRefs(page: Page, fromCandidate: bool, pointers: seq<string>, before: Groups)
    returns (outcome: Result<Groups, Unencodable>)
    ensures outcome.Success? ==> FirstUnencodable(Refs(page), pointers).None?
    ensures outcome.Success? ==> outcome.value == AddPage(before, page, fromCandidate, pointers)
    ensures outcome.Failure? ==> FirstUnencodable(Refs(page), pointers) == Some(outcome.error)
  {
    if page.evidence.None? {
      NothingToMerge(before, page, fromCandidate, pointers);
      return Success(before);
    }
    var read := ReadSections(page.evidence.value, pointers);
    if read.Failure? {
      return Failure(read.error);
    }
    assert read.value == ValuesOf(page, pointers);
    var groups := MergeInto(before, Additions(read.value, fromCandidate));
    return Success(groups);
  }

  lemma NothingToMerge(before: Groups, page: Page, fromCandidate: bool, pointers: seq<string>)
    requires page.evidence.None?
    ensures AddPage(before, page, fromCandidate, pointers) == before
  {
    var perPage := ValuesOf(page, pointers);
    assert perPage.Keys == {};
  }

  // ----- Arbitration -----

  method CollectAll(d: Dispute) returns (outcome: Result<Groups, Unencodable>)
    ensures outcome.Success? ==> FirstUnencodable(AllRefs(d), d.comparePointers).None?
    ensures outcome.Success? ==> outcome.value == AllGroups(d.candidate, d.related, d.comparePointers)
    ensures outcome.Failure? ==> FirstUnencodable(AllRefs(d), d.comparePointers) == Some(outcome.error)
  {
    var ps := d.comparePointers;
    outcome := CollectPageRefs(d.candidate, true, ps, map[]);
    FirstUnencodableAppend(Refs(d.candidate), Flatten(Map(Refs, d.related)), ps);
    if outcome.Failure? {
      return;
    }
    var groups := outcome.value;
    for i := 0 to |d.related|
      invariant groups == AllGroups(d.candidate, d.related[..i], ps)
      invariant FirstUnencodable(Flatten(Map(Refs, d.related[..i])), ps).None?
    {
      TakeStep(d.related, i);
      var step := CollectPageRefs(d.related[i], false, ps, groups);
      FlattenPages(d.related, i);
      FirstUnencodableAppend(Flatten(Map(Refs, d.related[..i])), Refs(d.related[i]), ps);
      if step.Failure? {
        FirstUnencodableAppend(Flatten(Map(Refs, d.related[..i])) + Refs(d.related[i]),
                               Flatten(Map(Refs, d.related[i + 1..])), ps);
        return Failure(step.error);
      }
      groups := step.value;
    }
    TakeAll(d.related);
    return Success(groups);
  }

  lemma FlattenPages(related: seq<Page>, i: nat)
    requires i < |related|
    ensures Flatten(Map(Refs, related[..i + 1])) == Flatten(Map(Refs, related[..i])) + Refs(related[i])
    ensures Flatten(Map(Refs, related)) ==
            Flatten(Map(Refs, related[..i])) + Refs(related[i]) + Flatten(Map(Refs, related[i + 1..]))
  {
    var parts := Map(Refs, related[..i + 1]);
    assert parts[..i] == Map(Refs, related[..i]);
    var rest := Map(Refs, related[i + 1..]);
    assert Map(Refs, related) == parts + rest;
    FlattenAppend(parts, rest);
  }

  /** What one group amounts to. */
  datatype Verdict = Uncompared | Equal | Divergent(candidate: Bytes, evidence: Bytes)

  ghost function VerdictOf(d: Dispute, key: ClaimKey): Verdict {
    if !IsCompared(d, key) then Uncompared
    else if IsDivergent(d, key) then Divergent(CandidateValue(d, key), EvidenceValue(d, key))
    else Equal
  }

  /** The first listed value that is not v. */
  function FindOther(values: seq<Bytes>, v: Bytes): Option<Bytes> {
    if values == [] then None
    else if values[0] != v then Some(values[0])
    else FindOther(values[1..], v)
  }

  /** The loop body of the arbiter. The search for a second value always succeeds. */
  method Judge(d: Dispute, key: ClaimKey, occs: seq<Occurrence>) returns (verdict: Verdict)
    requires GroupHolds(occs, d, key) && occs != []
    ensures verdict == VerdictOf(d, key)
  {
    if |occs| < 2 {
      if IsDivergent(d, key) { DivergentIsCompared(d, key); }
      return Uncompared;
    }
    var values := set o | o in occs :: o.value;
    var distinct := Sorted(values);
    assert occs[0].value in values;
    if |distinct| == 1 {
      return Equal;
    }
    var onCandidate := set o | o in occs && o.fromCandidate :: o.value;
    BytesLtTotal();
    var candidateValue := if onCandidate != {} then Least(BytesLt, onCandidate) else distinct[0];
    SortedFirst(values);
    var evidenceValue := FindOther(distinct, candidateValue);
    SecondValue(values, candidateValue);
    return Divergent(candidateValue, evidenceValue.value);
  }

  lemma SortedFirst(values: set<Bytes>)
    requires values != {}
    ensures StrictTotal(BytesLt) && Sorted(values)[0] == Least(BytesLt, values)
  {
    BytesLtTotal();
  }

  lemma SecondValue(values: set<Bytes>, v: Bytes)
    requires |values| >= 2
    ensures StrictTotal(BytesLt) && values - {v} != {}
    ensures FindOther(Sorted(values), v) == Some(Least(BytesLt, values - {v}))
  {
    BytesLtTotal();
    TwoElements(values, v);
    var m := Least(BytesLt, values);
    EnumerateStep(BytesLt, values);
    HeadOther(m, Enumerate(BytesLt, values - {m}), v);
    if m != v {
      LeastIs(BytesLt, values - {v}, m);
    } else {
      EnumerateStep(BytesLt, values - {v});
      HeadOther(Least(BytesLt, values - {v}), Enumerate(BytesLt, values - {v} - {Least(BytesLt, values - {v})}), v);
    }
  }

  lemma HeadOther(m: Bytes, rest: seq<Bytes>, v: Bytes)
    ensures FindOther([m] + rest, v) == if m != v then Some(m) else FindOther(rest, v)
  {
    assert ([m] + rest)[1..] == rest;
  }

  ghost function ComparedP(d: Dispute): ClaimKey -> bool { (k: ClaimKey) => IsCompared(d, k) }

  ghost function DivergentP(d: Dispute): ClaimKey -> bool { (k: ClaimKey) => IsDivergent(d, k) }

  method Arbitrate(d: Dispute, hash: Bytes -> Digest) returns (outcome: Result<Report, Unencodable>)
    ensures outcome.Success? ==> FirstUnencodable(AllRefs(d), d.comparePointers).None?
    ensures outcome.Success? ==> outcome.value == ReportOf(d, hash)
    ensures outcome.Failure? ==> FirstUnencodable(AllRefs(d), d.comparePointers) == Some(outcome.error)
  {
    var collected := CollectAll(d);
    if collected.Failure? {
      return Failure(collected.error);
    }
    var groups := collected.value;
    GroupKeys(d);
    var comparedGroups, equalGroups := 0, 0;
    var findings: seq<Finding> := [];
    var keys := SortedClaimKeys(groups.Keys);
    for i := 0 to |keys|
      invariant Tally(d, hash, keys[..i], comparedGroups, equalGroups, findings)
    {
      var key := keys[i];
      TakeStep(keys, i);
      GroupFacts(d.candidate, d.related, d.comparePointers, key);
      GroupNonEmpty(d, key);
      var verdict := Judge(d, key, groups[key]);
      TallyStep(d, hash, keys[..i], comparedGroups, equalGroups, findings, key);
      match verdict
      case Uncompared =>
      case Equal =>
        comparedGroups, equalGroups := comparedGroups + 1, equalGroups + 1;
      case Divergent(candidateValue, evidenceValue) =>
        comparedGroups := comparedGroups + 1;
        findings := findings + [Finding(key, hash(candidateValue), hash(evidenceValue))];
    }
    TakeAll(keys);
    TallyAll(d, hash, comparedGroups, equalGroups, findings);
    var score := if comparedGroups == 0 then None else Some(equalGroups as real / comparedGroups as real);
    return Success(Report(score, comparedGroups, findings, |d.related|));
  }

  /** The counters and findings once the groups of `done` have been judged. */
  ghost predicate Tally(
    d: Dispute, hash: Bytes -> Digest, done: seq<ClaimKey>, compared: int, equal: int, findings: seq<Finding>)
  {
    && compared == |Filter(ComparedP(d), done)|
    && equal == compared - |Filter(DivergentP(d), done)|
    && findings == Findings(d, hash, Filter(DivergentP(d), done))
  }

  lemma TallyStep(d: Dispute, hash: Bytes -> Digest, done: seq<ClaimKey>, compared: int, equal: int,
                  findings: seq<Finding>, key: ClaimKey)
    requires Tally(d, hash, done, compared, equal, findings)
    ensures match VerdictOf(d, key)
            case Uncompared => Tally(d, hash, done + [key], compared, equal, findings)
            case Equal => Tally(d, hash, done + [key], compared + 1, equal + 1, findings)
            case Divergent(c, e) =>
              Tally(d, hash, done + [key], compared + 1, equal, findings + [Finding(key, hash(c), hash(e))])
  {
    if IsDivergent(d, key) { DivergentIsCompared(d, key); }
    FilterPush(ComparedP(d), done, key);
    FilterPush(DivergentP(d), done, key);
    FindingsPush(d, hash, Filter(DivergentP(d), done), key);
  }

  lemma FindingsPush(d: Dispute, hash: Bytes -> Digest, keys: seq<ClaimKey>, key: ClaimKey)
    ensures Findings(d, hash, keys + [key]) == Findings(d, hash, keys) + [FindingFor(d, hash, key)]
  {
  }

  lemma TallyAll(d: Dispute, hash: Bytes -> Digest, compared: int, equal: int, findings: seq<Finding>)
    requires Tally(d, hash, SortedClaimKeys(ClaimKeys(d)), compared, equal, findings)
    ensures compared == |ComparedKeys(d)| && equal == |ComparedKeys(d) - DivergentKeys(d)|
    ensures findings == Findings(d, hash, SortedClaimKeys(DivergentKeys(d)))
  {
    ComparedCounted(d);
    DivergentListed(d);
    ComparedSplits(d);
  }

  lemma ComparedCounted(d: Dispute)
    ensures |Filter(ComparedP(d), SortedClaimKeys(ClaimKeys(d)))| == |ComparedKeys(d)|
  {
    FilterSortedKeys(ComparedP(d), ClaimKeys(d), ComparedKeys(d));
  }

  lemma DivergentListed(d: Dispute)
    ensures Filter(DivergentP(d), SortedClaimKeys(ClaimKeys(d))) == SortedClaimKeys(DivergentKeys(d))
    ensures |Filter(DivergentP(d), SortedClaimKeys(ClaimKeys(d)))| == |DivergentKeys(d)|
  {
    FilterSortedKeys(DivergentP(d), ClaimKeys(d), DivergentKeys(d));
  }

  lemma GroupKeys(d: Dispute)
    ensures AllGroups(d.candidate, d.related, d.comparePointers).Keys == ClaimKeys(d)
  {
    forall k ensures k in AllGroups(d.candidate, d.related, d.comparePointers) <==> k in ClaimKeys(d) {
      GroupKeysFact(d.candidate, d.related, d.comparePointers, k);
    }
  }

  lemma GroupNonEmpty(d: Dispute, key: ClaimKey)
    requires key in ClaimKeys(d)
    ensures GroupValues(d, key) != {}
  {
    if key in Keys(Refs(d.candidate), d.comparePointers) {
      var r :| r in Refs(d.candidate) && IsComparablePointer(r.pointer, d.comparePointers)
               && Canonical(r.value).Some? && KeyOf(r) == key;
      assert Canonical(r.value).value in CandidateValues(d, key);
    } else {
      var p :| p in d.related && key in Keys(Refs(p), d.comparePointers);
      var r :| r in Refs(p) && IsComparablePointer(r.pointer, d.comparePointers)
               && Canonical(r.value).Some? && KeyOf(r) == key;
      assert Canonical(r.value).value in Values(Refs(p), d.comparePointers, key);
      assert Canonical(r.value).value in RelatedValues(d.related, d.comparePointers, key);
    }
  }

  lemma FilterSortedKeys(keep: ClaimKey -> bool, keys: set<ClaimKey>, part: set<ClaimKey>)
    requires forall k :: k in part <==> k in keys && keep(k)
    ensures Filter(keep, SortedClaimKeys(keys)) == SortedClaimKeys(part)
  {
    KeyLtTotal();
    FilterEnumerate(KeyLt, keep, keys, part);
  }
}
