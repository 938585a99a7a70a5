/** How each part of a filter reads, and which parts are refused, with operators and words
    spelled out. */
module FilterRefusals {
  import opened Wrappers
  import Sequences
  import opened Text
  import opened Filter
  import opened FilterRoundTrip

  // ----- The two words that are no text -----

  /** `true` or `false`, each letter in either case. */
  predicate TrueOrFalse(s: string) {
    || (|s| == 4 && s[0] in "tT" && s[1] in "rR" && s[2] in "uU" && s[3] in "eE")
    || (|s| == 5 && s[0] in "fF" && s[1] in "aA" && s[2] in "lL" && s[3] in "sS" && s[4] in "eE")
  }

  lemma EitherCase(c: char, lower: char)
    requires 'a' <= lower <= 'z'
    ensures LowerAscii(c) == LowerAscii(lower) <==> c == lower || c as int == lower as int - 32
  {
  }

  lemma BooleanWords(s: string)
    ensures IsBoolWord(s) <==> TrueOrFalse(s)
  {
    forall i, lower | 0 <= i < |s| && 'a' <= lower <= 'z'
      ensures LowerAscii(s[i]) == LowerAscii(lower) <==> s[i] == lower || s[i] as int == lower as int - 32
    {
      EitherCase(s[i], lower);
    }
  }

  /** No parse gives a text equality with one of the words. */
  lemma NoBooleanEquality(num: NumText, part: string)
    requires ParseOne(num, part).Success? && ParseOne(num, part).value.TextEquals?
    ensures !TrueOrFalse(ParseOne(num, part).value.value)
  {
    BooleanWords(ParseOne(num, part).value.value);
  }

  lemma NoBooleanEqualities(num: NumText, spec: string)
    requires ParseAll(Parser(num), Parts(spec)).Success?
    ensures forall c :: c in ParseAll(Parser(num), Parts(spec)).value && c.TextEquals? ==> !TrueOrFalse(c.value)
  {
    var parts, conds := Parts(spec), ParseAll(Parser(num), Parts(spec)).value;
    ParseAllGives(Parser(num), parts);
    forall c | c in conds && c.TextEquals? ensures !TrueOrFalse(c.value) {
      var i :| 0 <= i < |conds| && conds[i] == c;
      NoBooleanEquality(num, parts[i]);
    }
  }

  // ----- How a part reads -----

  predicate StandsAt(s: string, op: string, i: int) { 0 <= i && i + |op| <= |s| && s[i..i + |op|] == op }

  /** The first occurrence of an operator. */
  ghost predicate FirstAt(part: string, op: string, i: int) {
    StandsAt(part, op, i) && forall j :: 0 <= j < i ==> !StandsAt(part, op, j)
  }

  lemma OccursIsStands(s: string, op: string, i: int)
    ensures OccursAt(s, op, i) <==> StandsAt(s, op, i)
  {
    if 0 <= i && i + |op| <= |s| {
      var piece := s[i..i + |op|];
      assert forall k :: 0 <= k < |op| ==> piece[k] == s[i + k];
    }
  }

  lemma FirstAtSplits(part: string, op: string, i: int)
    requires FirstAt(part, op, i)
    ensures Contains(part, op) && SplitOnce(part, op) == Some((part[..i], part[i + |op|..]))
  {
    OccursIsStands(part, op, i);
    forall j | 0 <= j < |part[..i]| ensures !OccursAt(part, op, j) {
      OccursIsStands(part, op, j);
    }
    assert part == part[..i] + op + part[i + |op|..];
    SplitOnceUnique(part, op, part[..i], part[i + |op|..]);
  }

  lemma SplitsAtFirst(part: string, op: string) returns (i: int)
    requires Contains(part, op)
    ensures FirstAt(part, op, i)
  {
    i := FindFrom(part, op, 0).value;
    OccursIsStands(part, op, i);
    forall j | 0 <= j < i ensures !StandsAt(part, op, j) {
      OccursIsStands(part, op, j);
    }
  }

  /** An operator needs its equals sign. */
  lemma NoOperatorWithout(s: string, op: string)
    requires '=' !in s && op != [] && op[|op| - 1] == '='
    ensures !Contains(s, op)
  {
    forall i ensures !OccursAt(s, op, i) {
      if 0 <= i && i + |op| <= |s| {
        assert s[i + (|op| - 1)] != op[|op| - 1];
      }
    }
  }

  /** The first `<=` of a part bounds its field from above, whatever else the part holds. */
  lemma UpperBoundReads(num: NumText, part: string, i: int)
    requires FirstAt(part, "<=", i)
    ensures var bound := num.parse(Trim(part[i + 2..]));
            ParseOne(num, part) == if bound.Some? then Success(NumericRange(Trim(part[..i]), None, bound))
                                   else Failure(InvalidNumber("<=", part[i + 2..]))
  {
    FirstAtSplits(part, "<=", i);
  }

  /** Without one, the first `>=` bounds it from below. */
  lemma LowerBoundReads(num: NumText, part: string, i: int)
    requires !Contains(part, "<=") && FirstAt(part, ">=", i)
    ensures var bound := num.parse(Trim(part[i + 2..]));
            ParseOne(num, part) == if bound.Some? then Success(NumericRange(Trim(part[..i]), bound, None))
                                   else Failure(InvalidNumber(">=", part[i + 2..]))
  {
    FirstAtSplits(part, ">=", i);
  }

  /** Without bounds, the first `not_in=` excludes the items listed after it. */
  lemma ExclusionReads(num: NumText, part: string, i: int)
    requires !Contains(part, "<=") && !Contains(part, ">=") && FirstAt(part, "not_in=", i)
    ensures ParseOne(num, part) == Success(RefExcludes(Trim(part[..i]), RefList(part[i + 7..])))
  {
    FirstAtSplits(part, "not_in=", i);
  }

  /** Without these, the first `in=` asks for one of the items. */
  lemma MembershipReads(num: NumText, part: string, i: int)
    requires !Contains(part, "<=") && !Contains(part, ">=") && !Contains(part, "not_in=") && FirstAt(part, "in=", i)
    ensures ParseOne(num, part) == Success(RefContains(Trim(part[..i]), RefList(part[i + 3..])))
  {
    FirstAtSplits(part, "in=", i);
  }

  /** Without these, the first `=` asks for a text, unless it asks for one of the two words. */
  lemma EqualityReads(num: NumText, part: string, i: int)
    requires !Contains(part, "<=") && !Contains(part, ">=") && !Contains(part, "not_in=") && !Contains(part, "in=")
    requires FirstAt(part, "=", i)
    ensures var value := Trim(part[i + 1..]);
            ParseOne(num, part) == if TrueOrFalse(value) then Failure(BooleanFilter(part))
                                   else Success(TextEquals(Trim(part[..i]), value))
  {
    FirstAtSplits(part, "=", i);
    BooleanWords(Trim(part[i + 1..]));
  }

  /** A part without an equals sign does not read. */
  lemma NoEqualsNoReading(num: NumText, part: string)
    requires '=' !in part
    ensures ParseOne(num, part) == Failure(CannotParse(part))
  {
    NoOperatorWithout(part, "<=");
    NoOperatorWithout(part, ">=");
    NoOperatorWithout(part, "not_in=");
    NoOperatorWithout(part, "in=");
    NoOperatorWithout(part, "=");
  }

  // ----- What fails -----

  /** The text after the operator, up to which it does not occur, is no number. */
  ghost predicate BadBound(num: NumText, text: string, op: string) {
    exists i :: FirstAt(text, op, i) && num.parse(Trim(text[i + |op|..])).None?
  }

  lemma BadBoundIs(num: NumText, text: string, op: string, i: int)
    requires FirstAt(text, op, i)
    ensures BadBound(num, text, op) <==> num.parse(Trim(text[i + |op|..])).None?
  {
    FirstAtSplits(text, op, i);
    forall j | FirstAt(text, op, j) ensures j == i {
      FirstAtSplits(text, op, j);
      assert |text[..i]| == |text[..j]|;
    }
  }

  lemma NoBadBound(num: NumText, text: string, op: string)
    requires !Contains(text, op)
    ensures !BadBound(num, text, op)
  {
    forall i ensures !FirstAt(text, op, i) {
      if FirstAt(text, op, i) {
        FirstAtSplits(text, op, i);
      }
    }
  }

  /** A part fails exactly when its first numeric operator is followed by no number, or when it
      is an equality with one of the two words, or when it holds no equals sign. */
  lemma PartFailsIff(num: NumText, part: string)
    ensures ParseOne(num, part).Failure? <==>
            || BadBound(num, part, "<=")
            || (!Contains(part, "<=") && BadBound(num, part, ">="))
            || (!Contains(part, "<=") && !Contains(part, ">=") && !Contains(part, "in=") && AsksForWord(part))
            || '=' !in part
  {
    if Contains(part, "<=") {
      var i := SplitsAtFirst(part, "<=");
      UpperBoundReads(num, part, i);
      BadBoundIs(num, part, "<=", i);
      HoldsEquals(part, "<=", i);
    } else {
      NoBadBound(num, part, "<=");
      if Contains(part, ">=") {
        var i := SplitsAtFirst(part, ">=");
        LowerBoundReads(num, part, i);
        BadBoundIs(num, part, ">=", i);
        HoldsEquals(part, ">=", i);
      } else {
        NoBadBound(num, part, ">=");
        UnboundedFailsIff(num, part);
      }
    }
  }

  ghost predicate AsksForWord(part: string) {
    exists i :: FirstAt(part, "=", i) && TrueOrFalse(Trim(part[i + 1..]))
  }

  lemma HoldsEquals(part: string, op: string, i: int)
    requires FirstAt(part, op, i) && op != [] && op[|op| - 1] == '='
    ensures '=' in part
  {
    assert part[i..i + |op|][|op| - 1] == part[i + |op| - 1];
  }

  lemma UnboundedFailsIff(num: NumText, part: string)
    requires !Contains(part, "<=") && !Contains(part, ">=")
    ensures ParseOne(num, part).Failure? <==> (!Contains(part, "in=") && AsksForWord(part)) || '=' !in part
  {
    NotInHoldsIn(part);
    if Contains(part, "not_in=") {
      var i := SplitsAtFirst(part, "not_in=");
      ExclusionReads(num, part, i);
      HoldsEquals(part, "not_in=", i);
    } else if Contains(part, "in=") {
      var i := SplitsAtFirst(part, "in=");
      MembershipReads(num, part, i);
      HoldsEquals(part, "in=", i);
    } else if '=' in part {
      var k :| 0 <= k < |part| && part[k] == '=';
      assert OccursAt(part, "=", k);
      var i := SplitsAtFirst(part, "=");
      EqualityReads(num, part, i);
      forall j | FirstAt(part, "=", j) ensures j == i {
        FirstAtSplits(part, "=", i);
        FirstAtSplits(part, "=", j);
        assert |part[..i]| == |part[..j]|;
      }
    } else {
      NoEqualsNoReading(num, part);
    }
  }

  // ----- Printed equalities -----

  /** A field that no operator can grow out of. */
  ghost predicate CleanField(field: string) {
    Trimmed(field) && '=' !in field && !EndsWith(field, "<") && !EndsWith(field, ">") && !EndsWith(field, "in")
  }

  /** A printed equality with one of the two words is refused, whatever its field says. */
  lemma PrintedWordIsRefused(num: NumText, field: string, value: string)
    requires CleanField(field) && TrueOrFalse(value)
    ensures var text := FormatCondition(num, TextEquals(field, value));
            ParseOne(num, text) == Failure(BooleanFilter(text)) && text == field + "=" + value
  {
    WordIsPlain(value);
    TextOperators(field, value);
    TrimTrimmed(value);
    BooleanWords(value);
  }

  lemma WordIsPlain(value: string)
    requires TrueOrFalse(value)
    ensures Trimmed(value) && !Contains(value, "<=") && !Contains(value, ">=") && !Contains(value, "in=") && ',' !in value
  {
    NoOperatorWithout(value, "<=");
    NoOperatorWithout(value, ">=");
    NoOperatorWithout(value, "in=");
  }

  /** The same for a whole filter that consists of it. */
  lemma PrintedWordRefusesFilter(num: NumText, field: string, value: string)
    requires CleanField(field) && ',' !in field && TrueOrFalse(value)
    ensures var text := field + "=" + value;
            ParseAll(Parser(num), Parts(text)) == Failure(BooleanFilter(text))
  {
    var text := field + "=" + value;
    PrintedWordIsRefused(num, field, value);
    WordIsPlain(value);
    OnePart(field, value);
    assert [text][..0] == [];
  }

  lemma OnePart(field: string, value: string)
    requires Trimmed(field) && Trimmed(value) && ',' !in field && ',' !in value
    ensures Parts(field + "=" + value) == [field + "=" + value]
  {
    var text := field + "=" + value;
    VisibleEnds(field, "=", value);
    SplitClean(text, ',');
    assert Sequences.Map(Trim, [text]) == [text];
    FilterKeepsAll(NonEmpty, [text]);
  }

  /** A printed equality fails exactly for the two words, and for values with a numeric operator
      that no number follows. */
  lemma PrintedEqualityFailsIff(num: NumText, field: string, value: string)
    requires CleanField(field) && Trimmed(value)
    ensures ParseOne(num, FormatCondition(num, TextEquals(field, value))).Failure? <==>
            || TrueOrFalse(value)
            || BadBound(num, value, "<=")
            || (!Contains(value, "<=") && BadBound(num, value, ">="))
  {
    if TrueOrFalse(value) {
      PrintedWordIsRefused(num, field, value);
    } else if Contains(value, "<=") {
      UpperBoundInValue(num, field, value);
    } else {
      NoBadBound(num, value, "<=");
      if Contains(value, ">=") {
        LowerBoundInValue(num, field, value);
      } else {
        NoBadBound(num, value, ">=");
        PlainEqualityReads(num, field, value);
      }
    }
  }

  lemma BoundAfterLetter(value: string)
    requires value == "a<=b"
    ensures FirstAt(value, "<=", 1) && Trim(value[3..]) == "b"
  {
    assert value[1..3] == "<=" && value[0..2][0] == 'a';
    assert value[3..] == "b";
    TrimTrimmed("b");
  }

  /** Such a value: an equality that prints, and reads as a bound without a number. */
  lemma ValueWithBoundFails(num: NumText)
    requires num.parse("b").None?
    ensures CleanField("f") && Trimmed("a<=b") && !TrueOrFalse("a<=b")
    ensures ParseOne(num, FormatCondition(num, TextEquals("f", "a<=b"))).Failure?
  {
    BoundAfterLetter("a<=b");
    BadBoundIs(num, "a<=b", "<=", 1);
    PrintedEqualityFailsIff(num, "f", "a<=b");
  }

  lemma UpperBoundInValue(num: NumText, field: string, value: string)
    requires CleanField(field) && Contains(value, "<=")
    ensures ParseOne(num, field + "=" + value).Failure? <==> BadBound(num, value, "<=")
  {
    var i := SplitsAtFirst(value, "<=");
    var at := BoundAfterField(field, value, "<=", i);
    UpperBoundFails(num, field + "=" + value, at);
    BadBoundIs(num, value, "<=", i);
  }

  lemma UpperBoundFails(num: NumText, s: string, at: int)
    requires FirstAt(s, "<=", at)
    ensures ParseOne(num, s).Failure? <==> num.parse(Trim(s[at + 2..])).None?
  {
    UpperBoundReads(num, s, at);
  }

  lemma LowerBoundInValue(num: NumText, field: string, value: string)
    requires CleanField(field) && !Contains(value, "<=") && Contains(value, ">=")
    ensures ParseOne(num, field + "=" + value).Failure? <==> BadBound(num, value, ">=")
  {
    var i := SplitsAtFirst(value, ">=");
    var at := BoundAfterField(field, value, ">=", i);
    NoUpperBound(field, value);
    LowerBoundFails(num, field + "=" + value, at);
    BadBoundIs(num, value, ">=", i);
  }

  lemma NoUpperBound(field: string, value: string)
    requires CleanField(field) && !Contains(value, "<=")
    ensures !Contains(field + "=" + value, "<=")
  {
    TextOperators(field, value);
  }

  lemma LowerBoundFails(num: NumText, s: string, at: int)
    requires !Contains(s, "<=") && FirstAt(s, ">=", at)
    ensures ParseOne(num, s).Failure? <==> num.parse(Trim(s[at + 2..])).None?
  {
    LowerBoundReads(num, s, at);
  }

  lemma PlainEqualityReads(num: NumText, field: string, value: string)
    requires CleanField(field) && Trimmed(value) && !TrueOrFalse(value)
    requires !Contains(value, "<=") && !Contains(value, ">=")
    ensures ParseOne(num, field + "=" + value).Success?
  {
    var s := field + "=" + value;
    TextOperators(field, value);
    TrimTrimmed(value);
    BooleanWords(value);
  }

  lemma PairStands(s: string, op: string, i: int)
    requires |op| == 2
    ensures StandsAt(s, op, i) <==> 0 <= i < |s| - 1 && s[i] == op[0] && s[i + 1] == op[1]
  {
    if 0 <= i < |s| - 1 {
      var pair := s[i..i + 2];
      assert pair[0] == s[i] && pair[1] == s[i + 1];
      assert op == [op[0], op[1]] && pair == [s[i], s[i + 1]];
    }
  }

  /** Behind a clean field the first numeric operator is that of the value. */
  lemma BoundAfterField(field: string, value: string, op: string, i: int) returns (at: int)
    requires CleanField(field) && (op == "<=" || op == ">=") && FirstAt(value, op, i)
    ensures FirstAt(field + "=" + value, op, at) && (field + "=" + value)[at + 2..] == value[i + 2..]
  {
    at := |field| + 1 + i;
    SameTail(field, value, i + 2);
    PairStands(value, op, i);
    PairStands(field + "=" + value, op, at);
    forall j | 0 <= j < at ensures !StandsAt(field + "=" + value, op, j) {
      NotBeforeValue(field, value, op, i, j);
    }
  }

  lemma SameTail(field: string, value: string, k: nat)
    requires k <= |value|
    ensures |field| + 1 + k <= |field + "=" + value| && (field + "=" + value)[|field| + 1 + k..] == value[k..]
  {
  }

  lemma NotBeforeValue(field: string, value: string, op: string, i: int, j: int)
    requires CleanField(field) && (op == "<=" || op == ">=") && FirstAt(value, op, i) && 0 <= j < |field| + 1 + i
    ensures !StandsAt(field + "=" + value, op, j)
  {
    PairStands(field + "=" + value, op, j);
    if j > |field| {
      PairStands(value, op, j - |field| - 1);
      assert !StandsAt(value, op, j - |field| - 1);
    } else if j == |field| - 1 {
      assert field[|field| - 1..] == [field[j]];
    }
  }
}
