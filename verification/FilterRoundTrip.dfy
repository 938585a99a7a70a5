/** Printing a list of filter conditions and parsing it back gives the same list if and
    only if every condition survives. */
module FilterRoundTrip {
  import opened Wrappers
  import Sequences
  import opened Text
  import opened Filter

  // ----- Where an operator can occur -----

  /** An operator ends in its only equals sign. */
  ghost predicate Operator(op: string) {
    op != [] && op[|op| - 1] == '=' && forall k :: 0 <= k < |op| - 1 ==> op[k] != '='
  }

  /** The first split of a text at an operator is where the operator was put, unless the
      text before it already holds one. */
  lemma FirstSplit(a: string, op: string, b: string)
    requires Operator(op)
    ensures Contains(a + op + b, op)
    ensures !Contains(a, op) ==> SplitOnce(a + op + b, op) == Some((a, b))
    ensures Contains(a, op) ==> |SplitOnce(a + op + b, op).value.0| + |op| <= |a|
    ensures |SplitOnce(a + op + b, op).value.0| <= |a|
  {
    var s := a + op + b;
    OccursMiddle(a, op, b);
    assert Contains(s, op);
    if i :| OccursAt(a, op, i) {
      OccursInLonger(a, op + b, op, i);
      assert a + (op + b) == s;
      NotPastOccurrence(s, op, i);
    } else {
      forall i | 0 <= i < |a| ensures !OccursAt(s, op, i) {
        NoEarlierOccurrence(a, op, b, i);
      }
      SplitOnceUnique(s, op, a, b);
    }
  }

  lemma OccursInLonger(a: string, b: string, op: string, i: int)
    requires OccursAt(a, op, i)
    ensures OccursAt(a + b, op, i)
  {
    forall k | 0 <= k < |op| ensures (a + b)[i + k] == op[k] {
      assert (a + b)[i + k] == a[i + k];
    }
  }

  /** The first split is never past an occurrence. */
  lemma NotPastOccurrence(s: string, op: string, i: int)
    requires OccursAt(s, op, i)
    ensures SplitOnce(s, op).Some? && |SplitOnce(s, op).value.0| <= i
  {
    assert Contains(s, op);
  }

  lemma NoEarlierOccurrence(a: string, op: string, b: string, i: nat)
    requires Operator(op) && !Contains(a, op) && i < |a|
    ensures !OccursAt(a + op + b, op, i)
  {
    var s := a + op + b;
    if i + |op| <= |a| {
      assert !OccursAt(a, op, i);
      var k :| 0 <= k < |op| && a[i + k] != op[k];
      assert s[i + k] != op[k];
    } else {
      var last := |op| - 1;
      assert s[i + last] == op[i + last - |a|];
    }
  }

  /** A two-character pattern cannot straddle a boundary whose right side starts otherwise. */
  lemma ContainsPair(a: string, b: string, x: char, y: char)
    requires b != [] && b[0] != y
    ensures Contains(a + b, [x, y]) <==> Contains(a, [x, y]) || Contains(b, [x, y])
  {
    var s, pat := a + b, [x, y];
    if Contains(a, pat) { ContainsWithin([], a, b, pat); assert [] + a + b == s; }
    if Contains(b, pat) { ContainsWithin(a, b, [], pat); assert a + b + [] == s; }
    assert a != [] ==> s[|a| - 1 + 1] == b[0] != pat[1];
    if i :| OccursAt(s, pat, i) {
      assert s[i] == pat[0] && s[i + 1] == pat[1];
      if i + 2 <= |a| {
        assert OccursAt(a, pat, i);
      } else {
        assert OccursAt(b, pat, i - |a|);
      }
    }
  }

  /** A prefix that disagrees with the pattern at every start adds no occurrence. */
  lemma ContainsAfterHead(head: string, b: string, pat: string)
    requires forall i :: 0 <= i < |head| ==> Disagrees(head, pat, i)
    ensures Contains(head + b, pat) <==> Contains(b, pat)
  {
    var s := head + b;
    if Contains(b, pat) { ContainsWithin(head, b, [], pat); assert s + [] == s; }
    if i :| OccursAt(s, pat, i) {
      if i < |head| {
        DisagreementStays(head, b, pat, i);
      } else {
        var j := i - |head|;
        forall k | 0 <= k < |pat| ensures b[j + k] == pat[k] { assert s[i + k] == pat[k]; }
        assert OccursAt(b, pat, j);
      }
    }
  }

  lemma DisagreementStays(head: string, b: string, pat: string, i: nat)
    requires Disagrees(head, pat, i)
    ensures !OccursAt(head + b, pat, i)
  {
    var k :| 0 <= k < |pat| && i + k < |head| && head[i + k] != pat[k];
    assert (head + b)[i + k] != pat[k];
  }

  ghost predicate Disagrees(head: string, pat: string, i: nat) {
    exists k :: 0 <= k < |pat| && i + k < |head| && head[i + k] != pat[k]
  }

  /** An operator occurs around an equals sign when the field ends in its name, or later. */
  lemma ContainsAroundEquals(f: string, v: string, name: string)
    requires '=' !in f && '=' !in name
    ensures Contains(f + "=" + v, name + "=") <==> EndsWith(f, name) || Contains(v, name + "=")
  {
    var s, pat := f + "=" + v, name + "=";
    if Contains(v, pat) { ContainsWithin(f + "=", v, [], pat); assert s + [] == s; }
    if EndsWith(f, name) {
      assert OccursAt(s, pat, |f| - |name|);
    }
    forall i | 0 <= i <= |f| < i + |name| ensures !OccursAt(s, pat, i) {
      assert s[i + (|f| - i)] == '=' != pat[|f| - i];
    }
    if i :| OccursAt(s, pat, i) {
      assert s[i + |name|] == pat[|name|] == '=';
      if i > |f| {
        var j := i - |f| - 1;
        forall k | 0 <= k < |pat| ensures v[j + k] == pat[k] { assert s[i + k] == pat[k]; }
        assert OccursAt(v, pat, j);
      } else if i + |name| == |f| {
        forall k | 0 <= k < |name| ensures f[i + k] == name[k] { assert s[i + k] == pat[k]; }
        assert f[i..] == name;
      }
    }
  }

  // ----- What a parsed condition looks like -----

  /** What every parsed condition satisfies. */
  ghost predicate Shaped(cond: Condition) {
    match cond
    case NumericRange(field, min, max) => Trimmed(field) && min.None? != max.None?
    case TextEquals(field, value) => Trimmed(field) && Trimmed(value) && '=' !in field
    case RefContains(field, refs) => Trimmed(field) && forall r :: r in refs ==> Piece(r)
    case RefExcludes(field, refs) => Trimmed(field) && forall r :: r in refs ==> Piece(r)
  }

  ghost predicate Piece(r: string) { r != [] && Trimmed(r) && '|' !in r }

  ghost predicate AvoidsCommas(cond: Condition) {
    match cond
    case NumericRange(field, _, _) => ',' !in field
    case TextEquals(field, value) => ',' !in field && ',' !in value
    case RefContains(field, refs) => ',' !in field && forall r :: r in refs ==> ',' !in r
    case RefExcludes(field, refs) => ',' !in field && forall r :: r in refs ==> ',' !in r
  }

  lemma RefListPieces(val: string)
    ensures forall r :: r in RefList(val) ==> Piece(r) && forall x :: x in r ==> x in val
    ensures (exists x :: x in val && x != '|' && !IsWhitespace(x)) ==> RefList(val) != []
  {
    var t := Trim(val);
    var pieces := Split(t, '|');
    var trimmed := Sequences.Map(Trim, pieces);
    TrimFacts(val);
    SplitPieces(t, '|');
    forall r | r in RefList(val) ensures Piece(r) && forall x :: x in r ==> x in val {
      var i :| 0 <= i < |trimmed| && trimmed[i] == r;
      TrimFacts(pieces[i]);
    }
    if x :| x in val && x != '|' && !IsWhitespace(x) {
      var p :| p in pieces && x in p;
      var i :| 0 <= i < |pieces| && pieces[i] == p;
      TrimFacts(p);
      assert trimmed[i] in trimmed && NonEmpty(trimmed[i]);
      assert trimmed[i] in RefList(val);
    }
  }

  lemma RefListJoin(refs: seq<string>)
    requires forall r :: r in refs ==> Piece(r)
    ensures RefList(Join(refs, "|")) == refs
  {
    var j := Join(refs, "|");
    if refs == [] {
      assert Sequences.Map(Trim, Split([], '|')) == [[]];
      var blank: seq<string> := [[]];
      assert Sequences.Filter(NonEmpty, blank[..0]) == [];
    } else {
      assert forall i :: 0 <= i < |refs| ==> Piece(refs[i]);
      JoinVisibleEnds(refs, "|");
      TrimTrimmed(j);
      SplitJoin(refs, '|');
      assert Sequences.Map(Trim, refs) == refs;
      FilterKeepsAll(NonEmpty, refs);
    }
  }

  lemma {:induction false} FilterKeepsAll<T(!new)>(keep: T -> bool, s: seq<T>)
    requires forall x :: x in s ==> keep(x)
    ensures Sequences.Filter(keep, s) == s
  {
    if s != [] {
      FilterKeepsAll(keep, s[..|s| - 1]);
      Sequences.FrontLast(s);
    }
  }

  lemma ParsedShape(num: NumText, part: string)
    requires ParseOne(num, part).Success?
    ensures Shaped(ParseOne(num, part).value)
    ensures ',' !in part ==> AvoidsCommas(ParseOne(num, part).value)
  {
    PiecesShape(part, AT_MOST);
    PiecesShape(part, AT_LEAST);
    PiecesShape(part, NOT_IN);
    PiecesShape(part, IN);
    PiecesShape(part, EQUALS);
    if SplitOnce(part, EQUALS).Some? {
      EqualsFieldShape(part);
    }
  }

  lemma PiecesShape(part: string, op: string)
    ensures SplitOnce(part, op).Some? ==>
              var (field, val) := SplitOnce(part, op).value;
              && Trimmed(Trim(field)) && Trimmed(Trim(val))
              && (forall r :: r in RefList(val) ==> Piece(r))
              && (',' !in part ==> ',' !in Trim(field) && ',' !in Trim(val) && forall r :: r in RefList(val) ==> ',' !in r)
  {
    if SplitOnce(part, op).Some? {
      var (field, val) := SplitOnce(part, op).value;
      assert part == field + op + val;
      TrimFacts(field);
      TrimFacts(val);
      RefListPieces(val);
    }
  }

  lemma EqualsFieldShape(part: string)
    requires SplitOnce(part, EQUALS).Some?
    ensures '=' !in Trim(SplitOnce(part, EQUALS).value.0)
  {
    var (field, val) := SplitOnce(part, EQUALS).value;
    NoEqualsBefore(part, field, val);
    TrimFacts(field);
  }

  lemma NoEqualsBefore(part: string, field: string, val: string)
    requires part == field + EQUALS + val
    requires forall i :: 0 <= i < |field| ==> !OccursAt(part, EQUALS, i)
    ensures '=' !in field
  {
    forall i | 0 <= i < |field| ensures field[i] != '=' {
      assert !OccursAt(part, EQUALS, i);
      assert part[i] == field[i];
    }
  }

  // ----- One condition -----

  lemma AtMostRoundTrip(num: NumText, field: string, max: Num)
    requires Faithful(num) && Trimmed(field)
    ensures var cond := NumericRange(field, None, Some(max));
            ParseOne(num, Trim(FormatCondition(num, cond))) == Success(cond) <==> !Contains(field, AT_MOST)
  {
    var text := num.show(max);
    var s := field + AT_MOST + text;
    assert Faithful(num) ==> Trimmed(text) && num.parse(text) == Some(max);
    VisibleEnds(field, AT_MOST, text);
    FirstSplit(field, AT_MOST, text);
    TrimTrimmed(field);
    TrimTrimmed(text);
    TrimFacts(SplitOnce(s, AT_MOST).value.0);
  }

  /** A trimmed text, an operator and a trimmed text make a trimmed text. */
  lemma VisibleEnds(a: string, op: string, b: string)
    requires Trimmed(a) && Trimmed(b) && Operator(op) && !IsWhitespace(op[0])
    ensures Trimmed(a + op + b) && Trim(a + op + b) == a + op + b
  {
    var s := a + op + b;
    assert s[0] == if a != [] then a[0] else op[0];
    assert s[|s| - 1] == if b != [] then b[|b| - 1] else op[|op| - 1];
    TrimTrimmed(s);
  }

  lemma AtLeastRoundTrip(num: NumText, field: string, min: Num)
    requires Faithful(num) && Trimmed(field)
    ensures var cond := NumericRange(field, Some(min), None);
            ParseOne(num, Trim(FormatCondition(num, cond))) == Success(cond) <==>
            !Contains(field, AT_MOST) && !Contains(field, AT_LEAST)
  {
    var text := num.show(min);
    var s := field + AT_LEAST + text;
    assert Trimmed(text) && num.parse(text) == Some(min) && '<' !in text;
    VisibleEnds(field, AT_LEAST, text);
    FirstSplit(field, AT_LEAST, text);
    TrimTrimmed(field);
    TrimTrimmed(text);
    TrimFacts(SplitOnce(s, AT_LEAST).value.0);
    AtLeastAddsNoAtMost(field, text);
    ParsedByAtLeast(num, s, field, min);
  }

  lemma AtLeastAddsNoAtMost(field: string, text: string)
    requires '<' !in text
    ensures Contains(field + AT_LEAST + text, AT_MOST) <==> Contains(field, AT_MOST)
  {
    var rest := AT_LEAST + text;
    assert field + AT_LEAST + text == field + rest;
    ContainsPair(field, rest, '<', '=');
    assert AT_MOST == ['<', '='];
    forall i ensures !OccursAt(rest, AT_MOST, i) {
      if 0 <= i < |rest| {
        assert rest[i + 0] != AT_MOST[0];
      }
    }
  }

  lemma TextOperators(field: string, value: string)
    requires '=' !in field
    ensures var s := field + EQUALS + value;
            && (Contains(s, AT_MOST) <==> EndsWith(field, "<") || Contains(value, AT_MOST))
            && (Contains(s, AT_LEAST) <==> EndsWith(field, ">") || Contains(value, AT_LEAST))
            && (Contains(s, IN) <==> EndsWith(field, "in") || Contains(value, IN))
            && (Contains(s, NOT_IN) ==> Contains(s, IN))
            && SplitOnce(s, EQUALS) == Some((field, value))
  {
    ContainsAroundEquals(field, value, "<");
    ContainsAroundEquals(field, value, ">");
    ContainsAroundEquals(field, value, "in");
    assert "<" + "=" == AT_MOST && ">" + "=" == AT_LEAST && "in" + "=" == IN;
    NotInHoldsIn(field + EQUALS + value);
    NoEqualsNoOperator(field);
    FirstSplit(field, EQUALS, value);
  }

  lemma TextSurvives(field: string, value: string)
    requires Trimmed(field) && Trimmed(value) && '=' !in field && ',' !in field && ',' !in value
    ensures var s := field + EQUALS + value;
            Survives(TextEquals(field, value)) <==>
            !Contains(s, AT_MOST) && !Contains(s, AT_LEAST) && !Contains(s, IN) && !IsBoolWord(value)
  {
    TextOperators(field, value);
  }

  lemma TextRoundTrip(num: NumText, field: string, value: string)
    requires Trimmed(field) && Trimmed(value) && '=' !in field && ',' !in field && ',' !in value
    ensures var cond := TextEquals(field, value);
            ParseOne(num, Trim(FormatCondition(num, cond))) == Success(cond) <==> Survives(cond)
  {
    var cond, s := TextEquals(field, value), field + EQUALS + value;
    VisibleEnds(field, EQUALS, value);
    assert Trim(FormatCondition(num, cond)) == s;
    TextSurvives(field, value);
    assert SplitOnce(s, EQUALS) == Some((field, value)) && (Contains(s, NOT_IN) ==> Contains(s, IN)) by {
      TextOperators(field, value);
    }
    ParsedAsText(num, s, field, value);
  }

  lemma ParsedAsText(num: NumText, s: string, field: string, value: string)
    requires Trimmed(field) && Trimmed(value) && SplitOnce(s, EQUALS) == Some((field, value))
    requires Contains(s, NOT_IN) ==> Contains(s, IN)
    ensures ParseOne(num, s) == Success(TextEquals(field, value)) <==>
            !Contains(s, AT_MOST) && !Contains(s, AT_LEAST) && !Contains(s, IN) && !IsBoolWord(value)
  {
    TrimTrimmed(field);
    TrimTrimmed(value);
  }

  /** Which branch of the parser made the condition. */
  lemma ParsedByAtLeast(num: NumText, s: string, field: string, min: Num)
    ensures ParseOne(num, s) == Success(NumericRange(field, Some(min), None)) <==>
            && !Contains(s, AT_MOST) && SplitOnce(s, AT_LEAST).Some?
            && Trim(SplitOnce(s, AT_LEAST).value.0) == field && num.parse(Trim(SplitOnce(s, AT_LEAST).value.1)) == Some(min)
  {
  }

  lemma NoEqualsNoOperator(field: string)
    requires '=' !in field
    ensures !Contains(field, EQUALS)
  {
    if i :| OccursAt(field, EQUALS, i) {
      assert field[i] == EQUALS[0];
    }
  }

  lemma NotInHoldsIn(s: string)
    ensures Contains(s, NOT_IN) ==> Contains(s, IN)
  {
    if i :| OccursAt(s, NOT_IN, i) {
      forall k | 0 <= k < |IN| ensures s[i + 4 + k] == IN[k] {
        assert s[i + (4 + k)] == NOT_IN[4 + k];
      }
      assert OccursAt(s, IN, i + 4);
    }
  }

  /** The text before a list operator: the field and its blank, if there is a field. */
  function Lead(field: string): string { if field == [] then [] else field + " " }

  lemma LeadFacts(field: string, op: string, rest: string)
    requires Trimmed(field) && Trimmed(rest) && Operator(op) && !IsWhitespace(op[0])
    ensures Trim(field + " " + op + rest) == Lead(field) + op + rest
    ensures Trim(Lead(field)) == field
  {
    var s := op + rest;
    assert s[0] == op[0];
    assert s[|s| - 1] == if rest != [] then rest[|rest| - 1] else op[|op| - 1];
    if field == [] {
      assert field + " " + op + rest == " " + s;
      TrimBlank(s);
      assert Lead(field) + op + rest == s;
    } else {
      TrimBlank(field);
      var whole := field + " " + op + rest;
      assert whole[|whole| - 1] == s[|s| - 1];
      TrimTrimmed(whole);
    }
  }

  lemma LeadContains(field: string, rest: string, pat: string)
    requires pat != [] && ' ' !in pat
    ensures Contains(Lead(field) + rest, pat) <==> Contains(field, pat) || Contains(rest, pat)
    ensures Contains(Lead(field), pat) <==> Contains(field, pat)
  {
    if field == [] {
      assert Lead(field) + rest == rest;
      assert !Contains([], pat);
    } else {
      ContainsAroundSeparator(field, ' ', rest, pat);
      ContainsAroundSeparator(field, ' ', [], pat);
      assert field + [' '] + [] == Lead(field);
      assert field + [' '] + rest == Lead(field) + rest;
      assert !Contains([], pat);
    }
  }

  /** The joined items hold an operator exactly when the items or the list operator do. */
  lemma ListContains(field: string, op: string, refs: seq<string>, pat: string)
    requires pat != [] && ' ' !in pat && '|' !in pat
    requires forall i :: 0 <= i < |op| ==> Disagrees(op, pat, i)
    ensures Contains(Lead(field) + op + Join(refs, "|"), pat) <==>
            Contains(field, pat) || exists r :: r in refs && Contains(r, pat)
  {
    var j := Join(refs, "|");
    assert Lead(field) + op + j == Lead(field) + (op + j);
    LeadContains(field, op + j, pat);
    ContainsAfterHead(op, j, pat);
    JoinContains(refs, '|', pat);
  }

  lemma ListOperatorsDisagree()
    ensures forall i :: 0 <= i < |IN| ==> Disagrees(IN, AT_MOST, i) && Disagrees(IN, AT_LEAST, i) && Disagrees(IN, NOT_IN, i)
    ensures forall i :: 0 <= i < |NOT_IN| ==> Disagrees(NOT_IN, AT_MOST, i) && Disagrees(NOT_IN, AT_LEAST, i)
  {
    forall i | 0 <= i < |IN|
      ensures Disagrees(IN, AT_MOST, i) && Disagrees(IN, AT_LEAST, i) && Disagrees(IN, NOT_IN, i)
    {
      assert IN[i + 0] != AT_MOST[0] && IN[i + 0] != AT_LEAST[0];
      assert if i == 1 then IN[i + 1] != NOT_IN[1] else IN[i + 0] != NOT_IN[0];
    }
    forall i | 0 <= i < |NOT_IN| ensures Disagrees(NOT_IN, AT_MOST, i) && Disagrees(NOT_IN, AT_LEAST, i) {
      assert NOT_IN[i + 0] != AT_MOST[0] && NOT_IN[i + 0] != AT_LEAST[0];
    }
  }

  lemma TrimLead(field: string)
    requires Trimmed(field)
    ensures Trim(Lead(field)) == field
  {
    if field == [] { TrimTrimmed([]); } else { TrimBlank(field); }
  }

  /** Splitting a printed list condition at its operator. */
  lemma ListSplit(field: string, op: string, rest: string)
    requires Trimmed(field) && Operator(op) && |op| >= 2 && ' ' !in op
    ensures var s := Lead(field) + op + rest;
            && SplitOnce(s, op).Some?
            && (!Contains(field, op) ==> SplitOnce(s, op) == Some((Lead(field), rest)))
            && (Contains(field, op) ==> |Trim(SplitOnce(s, op).value.0)| < |field|)
            && |SplitOnce(s, op).value.1| >= |rest|
  {
    var s := Lead(field) + op + rest;
    FirstSplit(Lead(field), op, rest);
    LeadContains(field, [], op);
    var r := SplitOnce(s, op).value;
    assert |s| == |r.0| + |op| + |r.1|;
    assert |Trim(r.0)| <= |r.0| by { TrimFacts(r.0); }
  }

  lemma ParsedAsContains(num: NumText, s: string, field: string, refs: seq<string>)
    requires SplitOnce(s, IN).Some?
    ensures ParseOne(num, s) == Success(RefContains(field, refs)) <==>
            && !Contains(s, AT_MOST) && !Contains(s, AT_LEAST) && !Contains(s, NOT_IN)
            && Trim(SplitOnce(s, IN).value.0) == field && RefList(SplitOnce(s, IN).value.1) == refs
  {
  }

  lemma ParsedAsExcludes(num: NumText, s: string, field: string, refs: seq<string>)
    requires SplitOnce(s, NOT_IN).Some?
    ensures ParseOne(num, s) == Success(RefExcludes(field, refs)) <==>
            && !Contains(s, AT_MOST) && !Contains(s, AT_LEAST)
            && Trim(SplitOnce(s, NOT_IN).value.0) == field && RefList(SplitOnce(s, NOT_IN).value.1) == refs
  {
  }

  ghost predicate Pieces(refs: seq<string>) { forall r :: r in refs ==> Piece(r) }

  ghost predicate NoneContains(refs: seq<string>, pat: string) { forall r :: r in refs ==> !Contains(r, pat) }

  lemma PiecesJoin(refs: seq<string>)
    requires Pieces(refs)
    ensures Trimmed(Join(refs, "|"))
  {
    if refs != [] {
      assert forall i :: 0 <= i < |refs| ==> Piece(refs[i]);
      JoinVisibleEnds(refs, "|");
    }
  }

  lemma ListOperators()
    ensures Operator(IN) && Operator(NOT_IN) && !IsWhitespace(IN[0]) && !IsWhitespace(NOT_IN[0])
  {
  }

  /** A list condition as printed, trimmed. */
  lemma PrintedList(num: NumText, field: string, op: string, rest: string)
    requires Trimmed(field) && Trimmed(rest) && (op == IN || op == NOT_IN)
    ensures Trim(field + (" " + op) + rest) == Lead(field) + op + rest
  {
    ListOperators();
    LeadFacts(field, op, rest);
    Sequences.AppendAssociates(field, " ", op);
  }

  lemma InOperators(field: string, refs: seq<string>)
    ensures var s := Lead(field) + IN + Join(refs, "|");
            && (!Contains(s, AT_MOST) <==> !Contains(field, AT_MOST) && NoneContains(refs, AT_MOST))
            && (!Contains(s, AT_LEAST) <==> !Contains(field, AT_LEAST) && NoneContains(refs, AT_LEAST))
            && (!Contains(s, NOT_IN) <==> !Contains(field, NOT_IN) && NoneContains(refs, NOT_IN))
  {
    ListOperatorsDisagree();
    ListContains(field, IN, refs, AT_MOST);
    ListContains(field, IN, refs, AT_LEAST);
    ListContains(field, IN, refs, NOT_IN);
  }

  lemma NotInOperators(field: string, refs: seq<string>)
    ensures var s := Lead(field) + NOT_IN + Join(refs, "|");
            && (!Contains(s, AT_MOST) <==> !Contains(field, AT_MOST) && NoneContains(refs, AT_MOST))
            && (!Contains(s, AT_LEAST) <==> !Contains(field, AT_LEAST) && NoneContains(refs, AT_LEAST))
  {
    ListOperatorsDisagree();
    ListContains(field, NOT_IN, refs, AT_MOST);
    ListContains(field, NOT_IN, refs, AT_LEAST);
  }

  /** Splitting a printed list at its operator gives back field and items exactly when the
      field does not hold the operator. */
  lemma ListReadBack(field: string, op: string, refs: seq<string>)
    requires Trimmed(field) && Pieces(refs) && (op == IN || op == NOT_IN)
    ensures var r := SplitOnce(Lead(field) + op + Join(refs, "|"), op);
            && r.Some?
            && (Trim(r.value.0) == field && RefList(r.value.1) == refs <==> !Contains(field, op))
  {
    ListSplit(field, op, Join(refs, "|"));
    TrimLead(field);
    RefListJoin(refs);
  }

  lemma ContainsRoundTrip(num: NumText, field: string, refs: seq<string>)
    requires Trimmed(field) && Pieces(refs) && refs != []
    ensures var cond := RefContains(field, refs);
            ParseOne(num, Trim(FormatCondition(num, cond))) == Success(cond) <==>
            && !Contains(field, AT_MOST) && !Contains(field, AT_LEAST) && !Contains(field, IN)
            && NoneContains(refs, AT_MOST) && NoneContains(refs, AT_LEAST) && NoneContains(refs, NOT_IN)
  {
    var s := Lead(field) + IN + Join(refs, "|");
    assert Trim(FormatCondition(num, RefContains(field, refs))) == s by {
      PiecesJoin(refs);
      PrintedList(num, field, IN, Join(refs, "|"));
      assert " in=" == " " + IN;
    }
    InOperators(field, refs);
    NotInHoldsIn(field);
    ListReadBack(field, IN, refs);
    ParsedAsContains(num, s, field, refs);
  }

  lemma ExcludesRoundTrip(num: NumText, field: string, refs: seq<string>)
    requires Trimmed(field) && Pieces(refs)
    ensures var cond := RefExcludes(field, refs);
            ParseOne(num, Trim(FormatCondition(num, cond))) == Success(cond) <==>
            && !Contains(field, AT_MOST) && !Contains(field, AT_LEAST) && !Contains(field, NOT_IN)
            && NoneContains(refs, AT_MOST) && NoneContains(refs, AT_LEAST)
  {
    var s := Lead(field) + NOT_IN + Join(refs, "|");
    assert Trim(FormatCondition(num, RefExcludes(field, refs))) == s by {
      PiecesJoin(refs);
      PrintedList(num, field, NOT_IN, Join(refs, "|"));
      assert " not_in=" == " " + NOT_IN;
    }
    NotInOperators(field, refs);
    ListReadBack(field, NOT_IN, refs);
    ParsedAsExcludes(num, s, field, refs);
  }

  /** An empty scope is printed with a marker that parses as one item. */
  lemma EmptyScopeIsLost(num: NumText, field: string)
    requires Trimmed(field)
    ensures var cond := RefContains(field, []);
            ParseOne(num, Trim(FormatCondition(num, cond))) != Success(cond)
  {
    MarkerFacts();
    PrintedList(num, field, IN, EMPTY_SCOPE);
    assert " in=" == " " + IN;
    MarkedListIsNotEmpty(num, field, EMPTY_SCOPE);
  }

  lemma MarkerFacts()
    ensures EMPTY_SCOPE != [] && EMPTY_SCOPE[|EMPTY_SCOPE| - 1] == '>' && Trimmed(EMPTY_SCOPE)
  {
  }

  lemma MarkedListIsNotEmpty(num: NumText, field: string, marker: string)
    requires Trimmed(field) && marker != [] && marker[|marker| - 1] == '>'
    ensures ParseOne(num, Lead(field) + IN + marker) != Success(RefContains(field, []))
  {
    MarkedTail(field, marker);
    ParsedAsContains(num, Lead(field) + IN + marker, field, []);
  }

  lemma MarkedTail(field: string, marker: string)
    requires Trimmed(field) && marker != [] && marker[|marker| - 1] == '>'
    ensures SplitOnce(Lead(field) + IN + marker, IN).Some?
    ensures RefList(SplitOnce(Lead(field) + IN + marker, IN).value.1) != []
  {
    ListOperators();
    ListSplit(field, IN, marker);
    var r := SplitOnce(Lead(field) + IN + marker, IN).value;
    SameLast(Lead(field) + IN, marker, r.0 + IN, r.1);
    MarkedIsNotEmpty(r.1);
  }

  lemma SameLast(a: string, b: string, x: string, y: string)
    requires a + b == x + y && b != [] && y != []
    ensures b[|b| - 1] == y[|y| - 1]
  {
    assert (a + b)[|a + b| - 1] == b[|b| - 1];
    assert (x + y)[|x + y| - 1] == y[|y| - 1];
  }

  lemma MarkedIsNotEmpty(val: string)
    requires val != [] && val[|val| - 1] == '>'
    ensures RefList(val) != []
  {
    RefListPieces(val);
    assert val[|val| - 1] in val && !IsWhitespace('>');
  }

  /** One comma-free condition survives its own printing and parsing exactly when it is
      one of the surviving kind. */
  lemma OneRoundTrip(num: NumText, cond: Condition)
    requires Faithful(num) && AvoidsCommas(cond)
    ensures ParseOne(num, Trim(FormatCondition(num, cond))) == Success(cond) <==> Survives(cond)
  {
    var parsed := ParseOne(num, Trim(FormatCondition(num, cond)));
    if parsed == Success(cond) {
      ParsedShape(num, Trim(FormatCondition(num, cond)));
    }
    if Shaped(cond) {
      match cond
      case NumericRange(field, None, Some(b)) => AtMostRoundTrip(num, field, b);
      case NumericRange(field, Some(a), None) => AtLeastRoundTrip(num, field, a);
      case TextEquals(field, value) => TextRoundTrip(num, field, value);
      case RefContains(field, refs) =>
        if refs == [] { EmptyScopeIsLost(num, field); } else { ContainsRoundTrip(num, field, refs); }
      case RefExcludes(field, refs) => ExcludesRoundTrip(num, field, refs);
    }
  }

  // ----- The whole list -----

  ghost function PrintedConditions(num: NumText, conds: seq<Condition>): (r: seq<string>)
    ensures |r| == |conds| && forall i :: 0 <= i < |conds| ==> r[i] == FormatCondition(num, conds[i])
  {
    seq(|conds|, i requires 0 <= i < |conds| => FormatCondition(num, conds[i]))
  }

  ghost function Printed(num: NumText, conds: seq<Condition>): string { Join(PrintedConditions(num, conds), ",") }

  lemma PrintedAvoidsCommas(num: NumText, cond: Condition)
    requires Faithful(num) && AvoidsCommas(cond)
    ensures ',' !in FormatCondition(num, cond)
  {
    match cond
    case NumericRange(field, min, max) =>
      if min.Some? { assert ',' !in num.show(min.value); }
      if max.Some? { assert ',' !in num.show(max.value); }
    case TextEquals(_, _) =>
    case RefContains(_, refs) => JoinMembers(refs, "|", ',');
    case RefExcludes(_, refs) => JoinMembers(refs, "|", ',');
  }

  /** The parts that a printed comma-free list is split into. */
  lemma PrintedParts(num: NumText, conds: seq<Condition>)
    requires Faithful(num) && forall c :: c in conds ==> AvoidsCommas(c)
    ensures Parts(Printed(num, conds)) ==
            Sequences.Filter(NonEmpty, Sequences.Map(Trim, PrintedConditions(num, conds)))
  {
    var texts := PrintedConditions(num, conds);
    if conds == [] {
      var blank: seq<string> := [[]];
      assert Sequences.Map(Trim, Split([], ',')) == blank;
      assert Sequences.Filter(NonEmpty, blank[..0]) == [];
    } else {
      forall t | t in texts ensures ',' !in t {
        var i :| 0 <= i < |texts| && texts[i] == t;
        PrintedAvoidsCommas(num, conds[i]);
      }
      SplitJoin(texts, ',');
    }
  }

  lemma ParseAllAt<A, B, E>(parse: A -> Result<B, E>, parts: seq<A>, conds: seq<B>)
    ensures ParseAll(parse, parts) == Success(conds) <==>
            |conds| == |parts| && forall i :: 0 <= i < |parts| ==> parse(parts[i]) == Success(conds[i])
  {
    if ParseAll(parse, parts).Success? {
      ParseAllGives(parse, parts);
    }
    if |conds| == |parts| && forall i :: 0 <= i < |parts| ==> parse(parts[i]) == Success(conds[i]) {
      ParseAllOf(parse, parts, conds);
    }
  }

  lemma {:induction false} ParseAllGives<A, B, E>(parse: A -> Result<B, E>, parts: seq<A>)
    requires ParseAll(parse, parts).Success?
    ensures var r := ParseAll(parse, parts).value;
            |r| == |parts| && forall i :: 0 <= i < |parts| ==> parse(parts[i]) == Success(r[i])
  {
    if parts != [] {
      ParseAllGives(parse, parts[..|parts| - 1]);
    }
  }

  lemma {:induction false} ParseAllOf<A, B, E>(parse: A -> Result<B, E>, parts: seq<A>, conds: seq<B>)
    requires |conds| == |parts| && forall i :: 0 <= i < |parts| ==> parse(parts[i]) == Success(conds[i])
    ensures ParseAll(parse, parts) == Success(conds)
  {
    if parts != [] {
      ParseAllOf(parse, parts[..|parts| - 1], conds[..|parts| - 1]);
      Sequences.FrontLast(conds);
    }
  }

  /** When each text reads back as its condition exactly if the condition is good, and
      the blank text does not parse, the whole list reads back exactly if all are good. */
  lemma AllReadBack<B(!new), E>(parse: string -> Result<B, E>, texts: seq<string>, conds: seq<B>, good: B -> bool)
    requires |texts| == |conds| && parse([]).Failure?
    requires forall i :: 0 <= i < |conds| ==> (parse(texts[i]) == Success(conds[i]) <==> good(conds[i]))
    ensures ParseAll(parse, Sequences.Filter(NonEmpty, texts)) == Success(conds) <==> forall c :: c in conds ==> good(c)
  {
    var parts := Sequences.Filter(NonEmpty, texts);
    ParseAllAt(parse, parts, conds);
    FilterOfFullLength(NonEmpty, texts);
    if forall c :: c in conds ==> good(c) {
      forall t | t in texts ensures NonEmpty(t) {
        var i :| 0 <= i < |texts| && texts[i] == t;
        assert good(conds[i]);
      }
      FilterKeepsAll(NonEmpty, texts);
    }
  }

  lemma PartsAvoidCommas(spec: string)
    ensures forall p :: p in Parts(spec) ==> ',' !in p
  {
    var pieces := Split(spec, ',');
    var trimmed := Sequences.Map(Trim, pieces);
    SplitPieces(spec, ',');
    forall p | p in Parts(spec) ensures ',' !in p {
      var i :| 0 <= i < |trimmed| && trimmed[i] == p;
      TrimFacts(pieces[i]);
    }
  }

  lemma {:induction false} FilterOfFullLength<T(!new)>(keep: T -> bool, s: seq<T>)
    ensures |Sequences.Filter(keep, s)| <= |s|
    ensures |Sequences.Filter(keep, s)| == |s| ==> Sequences.Filter(keep, s) == s
  {
    if s != [] {
      FilterOfFullLength(keep, s[..|s| - 1]);
      Sequences.FrontLast(s);
    }
  }

  /** The blank text is no condition. */
  lemma BlankDoesNotParse(num: NumText)
    ensures ParseOne(num, []).Failure?
  {
    assert !Contains([], AT_MOST) && !Contains([], AT_LEAST) && !Contains([], NOT_IN);
    assert !Contains([], IN) && !Contains([], EQUALS);
  }

  ghost function Surviving(): Condition -> bool { (c: Condition) => Survives(c) }

  /** Printing a list of conditions and parsing the text gives back the same list, in
      order, if and only if every condition is of the surviving kind. */
  lemma ListRoundTrip(num: NumText, conds: seq<Condition>)
    requires Faithful(num)
    ensures ParseAll(Parser(num), Parts(Printed(num, conds))) == Success(conds) <==>
            forall c :: c in conds ==> Survives(c)
  {
    ReadBackAvoidsCommas(num, conds);
    if forall c :: c in conds ==> AvoidsCommas(c) {
      PrintedParts(num, conds);
      CommaFreeListRoundTrip(num, conds);
    }
  }

  lemma ReadBackAvoidsCommas(num: NumText, conds: seq<Condition>)
    ensures ParseAll(Parser(num), Parts(Printed(num, conds))) == Success(conds) ==>
              forall c :: c in conds ==> AvoidsCommas(c)
  {
    var parts := Parts(Printed(num, conds));
    if ParseAll(Parser(num), parts) != Success(conds) {
      return;
    }
    ParseAllAt(Parser(num), parts, conds);
    PartsAvoidCommas(Printed(num, conds));
    forall i | 0 <= i < |conds| ensures AvoidsCommas(conds[i]) {
      assert parts[i] in parts;
      assert Parser(num)(parts[i]) == Success(conds[i]);
      ParsedShape(num, parts[i]);
    }
  }

  lemma CommaFreeListRoundTrip(num: NumText, conds: seq<Condition>)
    requires Faithful(num) && forall c :: c in conds ==> AvoidsCommas(c)
    ensures var parts := Sequences.Filter(NonEmpty, Sequences.Map(Trim, PrintedConditions(num, conds)));
            ParseAll(Parser(num), parts) == Success(conds) <==> forall c :: c in conds ==> Survives(c)
  {
    var texts := Sequences.Map(Trim, PrintedConditions(num, conds));
    forall i | 0 <= i < |conds| ensures Parser(num)(texts[i]) == Success(conds[i]) <==> Surviving()(conds[i]) {
      OneRoundTrip(num, conds[i]);
    }
    BlankDoesNotParse(num);
    AllReadBack(Parser(num), texts, conds, Surviving());
  }
}
