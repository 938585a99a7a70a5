/** The command-line filter parser, its printer, and exactly which condition lists
    survive printing and parsing. */
module Filter {
  import opened Wrappers
  import Sequences
  import opened Text

  const FLOAT_PATTERNS: nat := 0x1_0000_0000_0000_0000
  const SIGN_BIT: nat := 0x8000_0000_0000_0000
  const INFINITY_BITS: nat := 0x7FF0_0000_0000_0000

  /** A 64-bit float that is not NaN, by its bit pattern: past the sign bit nothing exceeds
      the pattern of infinity. */
  type Num = bits: nat | bits < FLOAT_PATTERNS && bits % SIGN_BIT <= INFINITY_BITS

  /** Float parsing and printing, which the filter code only calls. */
  datatype NumText = NumText(show: Num -> string, parse: string -> Option<Num>, equal: (Num, Num) -> bool)

  datatype Condition =
    | NumericRange(field: string, min: Option<Num>, max: Option<Num>)
    | TextEquals(field: string, value: string)
    | RefContains(field: string, refs: seq<string>)
    | RefExcludes(field: string, refs: seq<string>)

  datatype Error = InvalidNumber(op: string, text: string) | BooleanFilter(part: string) | CannotParse(part: string)

  const AT_MOST := "<="
  const AT_LEAST := ">="
  const NOT_IN := "not_in="
  const IN := "in="
  const EQUALS := "="

  /** What is printed for an empty list. */
  const EMPTY_SCOPE := "<empty scope>"

  function LowerAscii(c: char): char {
    if 'A' <= c <= 'Z' then (c as int + 32) as char else c
  }

  predicate EqIgnoreAsciiCase(a: string, b: string) {
    |a| == |b| && forall i :: 0 <= i < |a| ==> LowerAscii(a[i]) == LowerAscii(b[i])
  }

  predicate IsBoolWord(s: string) { EqIgnoreAsciiCase(s, "true") || EqIgnoreAsciiCase(s, "false") }

  predicate NonEmpty(s: string) { s != [] }

  function RefList(val: string): seq<string> {
    Sequences.Filter(NonEmpty, Sequences.Map(Trim, Split(Trim(val), '|')))
  }

  /** Numeric operators are looked for first, then list membership, then equality. */
  function ParseOne(num: NumText, part: string): Result<Condition, Error> {
    var atMost := SplitOnce(part, AT_MOST);
    if atMost.Some? then
      var max := num.parse(Trim(atMost.value.1));
      if max.None? then Failure(InvalidNumber(AT_MOST, atMost.value.1))
      else Success(NumericRange(Trim(atMost.value.0), None, max))
    else
      var atLeast := SplitOnce(part, AT_LEAST);
      if atLeast.Some? then
        var min := num.parse(Trim(atLeast.value.1));
        if min.None? then Failure(InvalidNumber(AT_LEAST, atLeast.value.1))
        else Success(NumericRange(Trim(atLeast.value.0), min, None))
      else ParseListOrText(part)
  }

  function ParseListOrText(part: string): Result<Condition, Error> {
    var notIn := SplitOnce(part, NOT_IN);
    if notIn.Some? then Success(RefExcludes(Trim(notIn.value.0), RefList(notIn.value.1)))
    else
      var inList := SplitOnce(part, IN);
      if inList.Some? then Success(RefContains(Trim(inList.value.0), RefList(inList.value.1)))
      else ParseText(part)
  }

  function ParseText(part: string): Result<Condition, Error> {
    var equals := SplitOnce(part, EQUALS);
    if equals.None? then Failure(CannotParse(part))
    else if IsBoolWord(Trim(equals.value.1)) then Failure(BooleanFilter(part))
    else Success(TextEquals(Trim(equals.value.0), Trim(equals.value.1)))
  }

  /** The trimmed non-empty parts between commas. */
  function Parts(spec: string): seq<string> {
    Sequences.Filter(NonEmpty, Sequences.Map(Trim, Split(spec, ',')))
  }

  /** Parts parsed in order; the first error wins. */
  function ParseAll<A, B, E>(parse: A -> Result<B, E>, parts: seq<A>): Result<seq<B>, E> {
    if parts == [] then Success([])
    else
      var front := ParseAll(parse, parts[..|parts| - 1]);
      if front.Failure? then front
      else
        var last := parse(parts[|parts| - 1]);
        if last.Failure? then Failure(last.error) else Success(front.value + [last.value])
  }

  function Parser(num: NumText): string -> Result<Condition, Error> {
    (part: string) => ParseOne(num, part)
  }

  method ParseFilter(num: NumText, spec: string) returns (outcome: Result<seq<Condition>, Error>)
    ensures outcome == ParseAll(Parser(num), Parts(spec))
  {
    var conditions: seq<Condition> := [];
    var parts := Parts(spec);
    for i := 0 to |parts|
      invariant ParseAll(Parser(num), parts[..i]) == Success(conditions)
    {
      Sequences.TakeStep(parts, i);
      ParseAllPush(Parser(num), parts[..i], parts[i]);
      var parsed := ParseOne(num, parts[i]);
      if parsed.Failure? {
        FirstErrorWins(Parser(num), parts, i + 1);
        return Failure(parsed.error);
      }
      conditions := conditions + [parsed.value];
    }
    Sequences.TakeAll(parts);
    return Success(conditions);
  }

  lemma ParseAllPush<A, B, E>(parse: A -> Result<B, E>, parts: seq<A>, part: A)
    ensures ParseAll(parse, parts).Success? ==>
              ParseAll(parse, parts + [part]) ==
              if parse(part).Failure? then Failure(parse(part).error)
              else Success(ParseAll(parse, parts).value + [parse(part).value])
  {
    assert (parts + [part])[..|parts|] == parts;
  }

  lemma {:induction false} FirstErrorWins<A, B, E>(parse: A -> Result<B, E>, parts: seq<A>, n: nat)
    requires n <= |parts| && ParseAll(parse, parts[..n]).Failure?
    ensures ParseAll(parse, parts) == ParseAll(parse, parts[..n])
    decreases |parts|
  {
    if n == |parts| {
      Sequences.TakeAll(parts);
    } else {
      var front := parts[..|parts| - 1];
      assert front[..n] == parts[..n];
      FirstErrorWins(parse, front, n);
    }
  }

  function FormatCondition(num: NumText, cond: Condition): string {
    match cond
    case NumericRange(field, Some(a), Some(b)) =>
      if num.equal(a, b) then field + EQUALS + num.show(a)
      else num.show(a) + AT_MOST + field + AT_MOST + num.show(b)
    case NumericRange(field, Some(a), None) => field + AT_LEAST + num.show(a)
    case NumericRange(field, None, Some(b)) => field + AT_MOST + num.show(b)
    case NumericRange(field, None, None) => field
    case TextEquals(field, value) => field + EQUALS + value
    case RefContains(field, refs) =>
      field + " in=" + if refs == [] then EMPTY_SCOPE else Join(refs, "|")
    case RefExcludes(field, refs) => field + " not_in=" + Join(refs, "|")
  }

  // ----- Which conditions survive -----

  /** What float printing is relied on for: the text reads back as the same float and
      holds none of the characters that the filter syntax uses. */
  ghost predicate Faithful(num: NumText) {
    forall x: Num :: && num.parse(num.show(x)) == Some(x) && Trimmed(num.show(x))
                && ',' !in num.show(x) && '<' !in num.show(x) && '>' !in num.show(x) && '=' !in num.show(x)
  }

  ghost predicate Atom(s: string) { Trimmed(s) && ',' !in s }

  ghost predicate ListItem(s: string) {
    && Atom(s) && s != [] && '|' !in s
    && !Contains(s, AT_MOST) && !Contains(s, AT_LEAST)
  }

  ghost predicate EndsWith(s: string, end: string) { |end| <= |s| && s[|s| - |end|..] == end }

  /** The conditions that come back unchanged. */
  ghost predicate Survives(cond: Condition) {
    match cond
    case NumericRange(_, Some(_), Some(_)) => false
    case NumericRange(_, None, None) => false
    case NumericRange(field, None, Some(_)) => Atom(field) && !Contains(field, AT_MOST)
    case NumericRange(field, Some(_), None) => Atom(field) && !Contains(field, AT_MOST) && !Contains(field, AT_LEAST)
    case TextEquals(field, value) =>
      && Atom(field) && '=' !in field
      && !EndsWith(field, "<") && !EndsWith(field, ">") && !EndsWith(field, "in")
      && Atom(value) && !Contains(value, AT_MOST) && !Contains(value, AT_LEAST) && !Contains(value, IN)
      && !IsBoolWord(value)
    case RefContains(field, refs) =>
      && Atom(field) && !Contains(field, AT_MOST) && !Contains(field, AT_LEAST) && !Contains(field, IN)
      && refs != [] && forall r :: r in refs ==> ListItem(r) && !Contains(r, NOT_IN)
    case RefExcludes(field, refs) =>
      && Atom(field) && !Contains(field, AT_MOST) && !Contains(field, AT_LEAST) && !Contains(field, NOT_IN)
      && forall r :: r in refs ==> ListItem(r)
  }
}
