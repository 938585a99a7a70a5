/** The string operations of the source: trimming, splitting, joining, searching. */
module Text {
  import opened Wrappers

  /** The Unicode White_Space characters. */
  predicate IsWhitespace(c: char) {
    var n := c as int;
    || 0x9 <= n <= 0xD || n == 0x20 || n == 0x85 || n == 0xA0 || n == 0x1680
    || 0x2000 <= n <= 0x200A || n == 0x2028 || n == 0x2029 || n == 0x202F || n == 0x205F || n == 0x3000
  }

  /** Which code points these are. */
  lemma WhitespaceCodePoints(c: char)
    ensures IsWhitespace(c) <==>
            c in "\t\n\U{0b}\U{0c}\r \U{85}\U{a0}\U{1680}"
            || c in "\U{2000}\U{2001}\U{2002}\U{2003}\U{2004}\U{2005}\U{2006}\U{2007}\U{2008}\U{2009}\U{200a}"
            || c in "\U{2028}\U{2029}\U{202f}\U{205f}\U{3000}"
  {
  }

  function TrimStart(s: string): string {
    if s != [] && IsWhitespace(s[0]) then TrimStart(s[1..]) else s
  }

  function TrimEnd(s: string): string {
    if s != [] && IsWhitespace(s[|s| - 1]) then TrimEnd(s[..|s| - 1]) else s
  }

  function Trim(s: string): string { TrimEnd(TrimStart(s)) }

  predicate Trimmed(s: string) {
    s != [] ==> !IsWhitespace(s[0]) && !IsWhitespace(s[|s| - 1])
  }

  predicate OccursAt(s: string, pat: string, i: int) {
    0 <= i && i + |pat| <= |s| && forall k :: 0 <= k < |pat| ==> s[i + k] == pat[k]
  }

  ghost predicate Contains(s: string, pat: string) {
    exists i :: OccursAt(s, pat, i)
  }

  function FindFrom(s: string, pat: string, from: nat): (r: Option<nat>)
    requires from <= |s|
    ensures r.None? ==> forall i :: from <= i ==> !OccursAt(s, pat, i)
    ensures r.Some? ==> from <= r.value && OccursAt(s, pat, r.value)
    ensures r.Some? ==> forall i :: from <= i < r.value ==> !OccursAt(s, pat, i)
    decreases |s| - from
  {
    if OccursAt(s, pat, from) then Some(from)
    else if from == |s| then None
    else FindFrom(s, pat, from + 1)
  }

  /** The text before and after the first occurrence of pat. */
  function SplitOnce(s: string, pat: string): (r: Option<(string, string)>)
    ensures r.None? <==> !Contains(s, pat)
    ensures r.Some? ==> s == r.value.0 + pat + r.value.1 && forall i :: 0 <= i < |r.value.0| ==> !OccursAt(s, pat, i)
  {
    match FindFrom(s, pat, 0)
    case None => None
    case Some(i) =>
      assert s == s[..i] + pat + s[i + |pat|..];
      Some((s[..i], s[i + |pat|..]))
  }

  /** The pieces between occurrences of c; one more than there are occurrences. */
  function Split(s: string, c: char): (r: seq<string>)
    ensures |r| >= 1
  {
    if s == [] then [[]]
    else
      var rest := Split(s[1..], c);
      if s[0] == c then [[]] + rest else [[s[0]] + rest[0]] + rest[1..]
  }

  function Join(parts: seq<string>, sep: string): string {
    if parts == [] then []
    else if |parts| == 1 then parts[0]
    else parts[0] + sep + Join(parts[1..], sep)
  }

  // ----- Trimming -----

  lemma {:induction false} TrimStartFacts(s: string)
    ensures var t := TrimStart(s);
            && |t| <= |s| && t == s[|s| - |t|..] && (t != [] ==> !IsWhitespace(t[0]))
            && forall x :: x in s && !IsWhitespace(x) ==> x in t
  {
    if s != [] && IsWhitespace(s[0]) {
      TrimStartFacts(s[1..]);
      assert s == [s[0]] + s[1..];
    }
  }

  lemma {:induction false} TrimEndFacts(s: string)
    ensures var t := TrimEnd(s);
            && |t| <= |s| && t == s[..|t|] && (t != [] ==> !IsWhitespace(t[|t| - 1]))
            && forall x :: x in s && !IsWhitespace(x) ==> x in t
  {
    if s != [] && IsWhitespace(s[|s| - 1]) {
      TrimEndFacts(s[..|s| - 1]);
      assert s == s[..|s| - 1] + [s[|s| - 1]];
    }
  }

  /** Trimming leaves a trimmed piece of the text with all its visible characters. */
  lemma TrimFacts(s: string)
    ensures var t := Trim(s);
            && Trimmed(t) && |t| <= |s|
            && (forall x :: x in t ==> x in s)
            && forall x :: x in s && !IsWhitespace(x) ==> x in t
  {
    var u := TrimStart(s);
    TrimStartFacts(s);
    TrimEndFacts(u);
    var t := TrimEnd(u);
    assert t != [] ==> t[0] == u[0];
    assert forall x :: x in t ==> x in u;
    assert forall x :: x in u ==> x in s;
  }

  lemma TrimTrimmed(s: string)
    requires Trimmed(s)
    ensures Trim(s) == s
  {
  }

  /** A blank on either side of a trimmed text is removed. */
  lemma TrimBlank(s: string)
    requires Trimmed(s)
    ensures Trim(s + " ") == s && Trim(" " + s) == s
  {
    var before, after := " " + s, s + " ";
    assert before[0] == ' ' && before[1..] == s;
    assert after[|after| - 1] == ' ' && after[..|after| - 1] == s;
    assert TrimStart(before) == TrimStart(s) == s;
    if s == [] {
      assert after[1..] == [];
    } else {
      assert after[0] == s[0];
      assert TrimStart(after) == after;
      assert TrimEnd(after) == TrimEnd(s);
    }
  }

  // ----- Searching -----

  lemma OccursMiddle(a: string, pat: string, b: string)
    ensures OccursAt(a + pat + b, pat, |a|)
  {
  }

  lemma SplitOnceUnique(s: string, pat: string, a: string, b: string)
    requires s == a + pat + b && forall i :: 0 <= i < |a| ==> !OccursAt(s, pat, i)
    ensures SplitOnce(s, pat) == Some((a, b))
  {
    OccursMiddle(a, pat, b);
    assert Contains(s, pat);
    var r := SplitOnce(s, pat).value;
    OccursMiddle(r.0, pat, r.1);
    assert |r.0| == |a|;
    SamePieces(a, pat, b, r.0, r.1);
  }

  lemma SamePieces(a: string, pat: string, b: string, x: string, y: string)
    requires a + pat + b == x + pat + y && |a| == |x|
    ensures a == x && b == y
  {
    assert a == (a + pat + b)[..|a|] && x == (x + pat + y)[..|a|];
    assert b == (a + pat + b)[|a| + |pat|..] && y == (x + pat + y)[|a| + |pat|..];
  }

  lemma ContainsWithin(a: string, s: string, b: string, pat: string)
    requires Contains(s, pat)
    ensures Contains(a + s + b, pat)
  {
    var i :| OccursAt(s, pat, i);
    assert OccursAt(a + s + b, pat, |a| + i);
  }

  /** A pattern that avoids a character cannot straddle it. */
  lemma ContainsAroundSeparator(a: string, c: char, b: string, pat: string)
    requires c !in pat
    ensures Contains(a + [c] + b, pat) <==> pat == [] || Contains(a, pat) || Contains(b, pat)
  {
    var s := a + [c] + b;
    if pat == [] {
      assert OccursAt(s, pat, 0);
    }
    if Contains(a, pat) {
      assert s == [] + a + ([c] + b);
      ContainsWithin([], a, [c] + b, pat);
    }
    if Contains(b, pat) {
      assert s == (a + [c]) + b + [];
      ContainsWithin(a + [c], b, [], pat);
    }
    if i :| OccursAt(s, pat, i) {
      if i + |pat| <= |a| {
        forall k | 0 <= k < |pat| ensures a[i + k] == pat[k] { assert s[i + k] == pat[k]; }
        assert OccursAt(a, pat, i);
      } else if i > |a| {
        var j := i - |a| - 1;
        forall k | 0 <= k < |pat| ensures b[j + k] == pat[k] { assert s[i + k] == pat[k]; }
        assert OccursAt(b, pat, j);
      } else if pat != [] {
        assert s[|a|] == c;
        assert s[i + (|a| - i)] == pat[|a| - i];
      }
    }
  }

  // ----- Splitting and joining -----

  lemma {:induction false} SplitClean(a: string, c: char)
    requires c !in a
    ensures Split(a, c) == [a]
  {
    if a != [] {
      SplitClean(a[1..], c);
      assert a == [a[0]] + a[1..];
    }
  }

  lemma {:induction false} SplitFirst(a: string, c: char, b: string)
    requires c !in a
    ensures Split(a + [c] + b, c) == [a] + Split(b, c)
  {
    if a == [] {
      assert (a + [c] + b)[1..] == b;
    } else {
      SplitFirst(a[1..], c, b);
      assert (a + [c] + b)[1..] == a[1..] + [c] + b;
      assert a == [a[0]] + a[1..];
    }
  }

  /** Splitting undoes joining when no part holds the separator. */
  lemma {:induction false} SplitJoin(parts: seq<string>, c: char)
    requires parts != [] && forall p :: p in parts ==> c !in p
    ensures Split(Join(parts, [c]), c) == parts
  {
    if |parts| == 1 {
      SplitClean(parts[0], c);
    } else {
      SplitFirst(parts[0], c, Join(parts[1..], [c]));
      SplitJoin(parts[1..], c);
      assert parts == [parts[0]] + parts[1..];
    }
  }

  /** The pieces of a split avoid the separator and together hold every other character. */
  lemma {:induction false} SplitPieces(s: string, c: char)
    ensures forall p :: p in Split(s, c) ==> c !in p
    ensures forall p, x :: p in Split(s, c) && x in p ==> x in s
    ensures forall x :: x in s && x != c ==> exists p :: p in Split(s, c) && x in p
  {
    if s != [] {
      var rest := Split(s[1..], c);
      SplitPieces(s[1..], c);
      assert s == [s[0]] + s[1..];
      assert rest == [rest[0]] + rest[1..];
      assert s[0] != c ==> Split(s, c) == [[s[0]] + rest[0]] + rest[1..];
      forall p | p in Split(s, c) ensures c !in p && forall x :: x in p ==> x in s {
        assert p in rest || p == [] || (s[0] != c && p == [s[0]] + rest[0]);
      }
      forall x | x in s && x != c ensures exists p :: p in Split(s, c) && x in p {
        if s[0] == c {
          var p :| p in rest && x in p;
          assert p in Split(s, c);
        } else {
          var head := [s[0]] + rest[0];
          assert Split(s, c) == [head] + rest[1..];
          if x != s[0] {
            var p :| p in rest && x in p;
            assert p == rest[0] || p in Split(s, c);
          }
          assert head in Split(s, c);
        }
      }
    }
  }

  lemma {:induction false} JoinMembers(parts: seq<string>, sep: string, x: char)
    ensures x in Join(parts, sep) ==> x in sep || exists p :: p in parts && x in p
  {
    if |parts| > 1 {
      JoinMembers(parts[1..], sep, x);
      assert parts == [parts[0]] + parts[1..];
    }
  }

  lemma {:induction false} JoinContains(parts: seq<string>, c: char, pat: string)
    requires pat != [] && c !in pat
    ensures Contains(Join(parts, [c]), pat) <==> exists p :: p in parts && Contains(p, pat)
  {
    if |parts| > 1 {
      JoinContains(parts[1..], c, pat);
      ContainsAroundSeparator(parts[0], c, Join(parts[1..], [c]), pat);
      assert parts == [parts[0]] + parts[1..];
    } else if parts == [] {
      assert !Contains([], pat);
    }
  }

  lemma {:induction false} JoinVisibleEnds(parts: seq<string>, sep: string)
    requires parts != [] && forall i :: 0 <= i < |parts| ==> parts[i] != [] && Trimmed(parts[i])
    ensures Join(parts, sep) != [] && Trimmed(Join(parts, sep))
  {
    if |parts| > 1 {
      JoinVisibleEnds(parts[1..], sep);
      var j := Join(parts[1..], sep);
      assert (parts[0] + sep + j)[0] == parts[0][0];
      assert (parts[0] + sep + j)[|parts[0] + sep + j| - 1] == j[|j| - 1];
    }
  }
}
