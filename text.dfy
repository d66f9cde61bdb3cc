/** The Python string primitives the catalog parsers are built from:
    `str.strip()`, `str.split(sep)`, `str.split()`, the `in` substring test,
    `str.replace(c, '')`, `re.findall(r'\d+', s)`, `int(digits)` and `str(n)`.
    Strings are sequences of Unicode scalar values, compared by code point as
    Python compares them. */
module Text {
  import opened Wrappers

  /** Python's `str.isspace()` for one character. */
  predicate IsSpace(c: char) {
    var n := c as int;
    n == 0x20 || 0x09 <= n <= 0x0D || 0x1C <= n <= 0x1F || n == 0x85 || n == 0xA0 ||
    n == 0x1680 || 0x2000 <= n <= 0x200A || n == 0x2028 || n == 0x2029 ||
    n == 0x202F || n == 0x205F || n == 0x3000
  }

  predicate IsNotSpace(c: char) {
    !IsSpace(c)
  }

  /** An ASCII decimal digit (what `\d` and `int()` accept in this model). */
  predicate IsDigit(c: char) {
    '0' <= c <= '9'
  }

  predicate AllSpace(s: string) {
    forall i :: 0 <= i < |s| ==> IsSpace(s[i])
  }

  predicate AllDigits(s: string) {
    forall i :: 0 <= i < |s| ==> IsDigit(s[i])
  }

  predicate HasDigit(text: string) {
    exists i :: 0 <= i < |text| && IsDigit(text[i])
  }

  // ---------------------------------------------------------------- strip

  /** The number of whitespace characters `s` starts with. */
  function LeadingSpaces(s: string): (k: nat)
    ensures k <= |s|
  {
    if s != [] && IsSpace(s[0]) then LeadingSpaces(s[1..]) + 1 else 0
  }

  /** The leading run is the longest prefix of whitespace. */
  lemma {:induction false} LeadingSpacesSpec(s: string)
    ensures var k := LeadingSpaces(s);
      AllSpace(s[..k]) && (k < |s| ==> !IsSpace(s[k]))
  {
    if s != [] && IsSpace(s[0]) {
      LeadingSpacesSpec(s[1..]);
      var k := LeadingSpaces(s);
      assert forall i :: 0 < i < k ==> s[..k][i] == s[1..][..k - 1][i - 1];
    }
  }

  /** `s.lstrip()` */
  function StripStart(s: string): (r: string)
    ensures |r| <= |s|
  {
    s[LeadingSpaces(s)..]
  }

  /** `s.rstrip()` */
  function StripEnd(s: string): (r: string)
    ensures |r| <= |s|
  {
    s[..|s| - TrailingRun(s, IsSpace)]
  }

  /** `s.strip()`: the text with its leading and trailing whitespace removed. */
  function Strip(s: string): (r: string)
    ensures |r| <= |s|
    ensures r == [] || (!IsSpace(r[0]) && !IsSpace(r[|r| - 1]))
  {
    LeadingSpacesSpec(s);
    TrailingRunSpec(StripStart(s), IsSpace);
    StripEnd(StripStart(s))
  }

  /** Stripping leaves nothing exactly when the text is all whitespace. */
  lemma StripBlank(s: string)
    ensures Strip(s) == [] <==> AllSpace(s)
  {
    var k := LeadingSpaces(s);
    var t := StripStart(s);
    LeadingSpacesSpec(s);
    TrailingRunSpec(t, IsSpace);
    if Strip(s) == [] {
      // The first character after the leading run would be whitespace.
      if k < |s| {
        assert false;
      }
      assert s[..k] == s;
    }
  }

  /** `[t.strip() for t in ts]`: each text stripped, in place. */
  function StripEach(ts: seq<string>): (r: seq<string>)
    ensures |r| == |ts|
    ensures forall i :: 0 <= i < |ts| ==> r[i] == Strip(ts[i])
    ensures forall i :: 0 <= i < |ts| ==> r[i] == [] || (!IsSpace(r[i][0]) && !IsSpace(r[i][|r[i]| - 1]))
  {
    seq(|ts|, i requires 0 <= i < |ts| => Strip(ts[i]))
  }

  // ---------------------------------------------------------- substrings

  /** Python's `sub in s`. */
  predicate Contains(s: string, sub: string)
    decreases |s|
  {
    sub <= s || (s != [] && Contains(s[1..], sub))
  }

  lemma {:induction false} ContainsInfix(a: string, sub: string, b: string)
    ensures Contains(a + sub + b, sub)
    decreases |a|
  {
    if a == [] {
      assert sub <= a + sub + b;
    } else {
      assert (a + sub + b)[1..] == a[1..] + sub + b;
      ContainsInfix(a[1..], sub, b);
    }
  }

  /** `s.replace(c, '')` */
  function RemoveChar(s: string, c: char): (r: string)
    ensures c !in r
    ensures forall x :: x != c ==> multiset(r)[x] == multiset(s)[x]
  {
    if s == [] then []
    else
      assert s == [s[0]] + s[1..];
      (if s[0] == c then [] else [s[0]]) + RemoveChar(s[1..], c)
  }

  /** Removing a character works part by part: the text of a
      concatenation is each part's text, in order. */
  lemma {:induction false} RemoveCharConcat(a: string, b: string, c: char)
    ensures RemoveChar(a + b, c) == RemoveChar(a, c) + RemoveChar(b, c)
    decreases |a|
  {
    if a != [] {
      assert (a + b)[0] == a[0];
      assert (a + b)[1..] == a[1..] + b;
      RemoveCharConcat(a[1..], b, c);
    } else {
      assert a + b == b;
    }
  }

  /** A single character is dropped exactly when it is the one removed. */
  lemma RemoveCharSingle(x: char, c: char)
    ensures RemoveChar([x], c) == if x == c then [] else [x]
  {
    assert [x][1..] == [];
  }

  /** A text without the character comes back unchanged. */
  lemma {:induction false} RemoveCharAbsent(s: string, c: char)
    requires c !in s
    ensures RemoveChar(s, c) == s
    decreases |s|
  {
    if s != [] {
      assert s[0] != c;
      assert c !in s[1..];
      RemoveCharAbsent(s[1..], c);
    }
  }

  // ---------------------------------------------------------- split(sep)

  /** `s.split(sep)` for a one-character separator: the pieces between the
      occurrences of `sep`, always at least one. */
  function Split(s: string, sep: char): seq<string> {
    if s == [] then [""]
    else if s[0] == sep then [""] + Split(s[1..], sep)
    else Glue(s[0], Split(s[1..], sep))
  }

  /** Prepends `c` to the first piece. */
  function Glue(c: char, pieces: seq<string>): seq<string> {
    if pieces == [] then [[c]] else [[c] + pieces[0]] + pieces[1..]
  }

  /** There is always at least one piece, and no piece holds the separator. */
  lemma {:induction false} SplitPieces(s: string, sep: char)
    ensures Split(s, sep) != []
    ensures forall i :: 0 <= i < |Split(s, sep)| ==> sep !in Split(s, sep)[i]
  {
    if s != [] {
      SplitPieces(s[1..], sep);
    }
  }

  /** There is one piece more than there are separators. */
  lemma {:induction false} SplitCount(s: string, sep: char)
    ensures |Split(s, sep)| == multiset(s)[sep] + 1
  {
    if s != [] {
      SplitCount(s[1..], sep);
      assert s == [s[0]] + s[1..];
    }
  }

  /** `sep.join(parts)` */
  function Join(parts: seq<string>, sep: char): string {
    if parts == [] then ""
    else if |parts| == 1 then parts[0]
    else parts[0] + [sep] + Join(parts[1..], sep)
  }

  /** Splitting loses nothing: joining the pieces back gives the text. */
  lemma {:induction false} JoinSplit(s: string, sep: char)
    ensures Join(Split(s, sep), sep) == s
  {
    if s != [] {
      JoinSplit(s[1..], sep);
      var rest := Split(s[1..], sep);
      if s[0] != sep {
        var r := Split(s, sep);
        assert r[1..] == rest[1..];
        if |rest| == 1 {
          assert Join(r, sep) == [s[0]] + rest[0];
        } else {
          assert Join(r, sep) == [s[0]] + rest[0] + [sep] + Join(rest[1..], sep);
        }
      } else {
        assert Split(s, sep)[1..] == rest;
      }
    }
  }

  /** A separator-free prefix is glued onto the first piece. */
  lemma {:induction false} SplitPrefix(p: string, rest: string, sep: char)
    requires sep !in p
    ensures Split(p + rest, sep) == [p + Split(rest, sep)[0]] + Split(rest, sep)[1..]
  {
    var sr := Split(rest, sep);
    if p == [] {
      assert p + rest == rest && p + sr[0] == sr[0];
      assert sr == [sr[0]] + sr[1..];
    } else {
      var q := p[1..];
      assert p == [p[0]] + q;
      SplitPrefix(q, rest, sep);
      var s := p + rest;
      assert s[0] == p[0] && s[1..] == q + rest;
      assert [p[0]] + (q + sr[0]) == p + sr[0];
    }
  }

  /** Joining pieces that do not contain the separator and splitting again
      gives the pieces back. */
  lemma {:induction false} SplitJoin(parts: seq<string>, sep: char)
    requires parts != []
    requires forall i :: 0 <= i < |parts| ==> sep !in parts[i]
    ensures Split(Join(parts, sep), sep) == parts
  {
    var p := parts[0];
    if |parts| == 1 {
      SplitNoSep(p, sep);
    } else {
      var tail := parts[1..];
      SplitJoin(tail, sep);
      var j := Join(tail, sep);
      assert Join(parts, sep) == p + ([sep] + j);
      assert ([sep] + j)[1..] == j;
      assert Split([sep] + j, sep) == [""] + tail;
      SplitPrefix(p, [sep] + j, sep);
      assert Split(Join(parts, sep), sep) == [p + ""] + tail;
      assert p + "" == p;
      assert parts == [p] + tail;
    }
  }

  lemma {:induction false} SplitNoSep(s: string, sep: char)
    requires sep !in s
    ensures Split(s, sep) == [s]
  {
    if s != [] {
      assert sep !in s[1..] by {
        assert forall k :: 0 <= k < |s[1..]| ==> s[1..][k] == s[k + 1];
      }
      SplitNoSep(s[1..], sep);
      assert [s[0]] + s[1..] == s;
    }
  }

  /** The index of the first occurrence of `c` in `s`. */
  function FirstIndex(s: string, c: char): (i: nat)
    requires c in s
    ensures i < |s| && s[i] == c && c !in s[..i]
  {
    if s[0] == c then 0
    else
      assert c in s[1..] by {
        var k :| 0 <= k < |s| && s[k] == c;
        assert s[1..][k - 1] == c;
      }
      var j := FirstIndex(s[1..], c);
      assert s[..j + 1] == [s[0]] + s[1..][..j];
      j + 1
  }

  /** The first piece of a split is the text before the first separator, and
      the rest is the split of the text after it. */
  lemma {:induction false} SplitAtFirst(s: string, sep: char)
    requires sep in s
    ensures Split(s, sep) == [s[..FirstIndex(s, sep)]] + Split(s[FirstIndex(s, sep) + 1..], sep)
  {
    var i := FirstIndex(s, sep);
    var before, after := s[..i], s[i + 1..];
    var parts := [before] + Split(after, sep);
    SplitPieces(after, sep);
    forall k | 0 <= k < |parts| ensures sep !in parts[k] {
    }
    assert Join(parts, sep) == s by {
      JoinSplit(after, sep);
      assert s == before + [sep] + after;
      assert parts[1..] == Split(after, sep);
    }
    SplitJoin(parts, sep);
  }

  /** The first piece is the text before the first separator, or the whole
      text when there is none; a second piece exists exactly when there is a
      separator. */
  lemma SplitFirst(s: string, sep: char)
    ensures Split(s, sep) != []
    ensures Split(s, sep)[0] == if sep in s then s[..FirstIndex(s, sep)] else s
    ensures |Split(s, sep)| > 1 <==> sep in s
  {
    SplitPieces(s, sep);
    SplitCount(s, sep);
    if sep in s {
      SplitAtFirst(s, sep);
      SplitPieces(s[FirstIndex(s, sep) + 1..], sep);
    } else {
      SplitNoSep(s, sep);
    }
  }

  /** The second piece is the text between the first and second separator,
      or everything after the first when there is no second. */
  lemma SplitSecond(s: string, sep: char)
    requires sep in s
    ensures var rest := s[FirstIndex(s, sep) + 1..];
      |Split(s, sep)| >= 2 &&
      Split(s, sep)[1] == if sep in rest then rest[..FirstIndex(rest, sep)] else rest
  {
    var rest := s[FirstIndex(s, sep) + 1..];
    SplitAtFirst(s, sep);
    SplitFirst(rest, sep);
  }

  // ------------------------------------------------------ maximal runs

  /** The length of the longest suffix of `s` whose characters all satisfy `p`. */
  function TrailingRun(s: string, p: char -> bool): (k: nat)
    ensures k <= |s|
  {
    if s == [] || !p(s[|s| - 1]) then 0 else TrailingRun(s[..|s| - 1], p) + 1
  }

  /** The trailing run is the longest suffix whose characters qualify. */
  lemma {:induction false} TrailingRunSpec(s: string, p: char -> bool)
    ensures var k := TrailingRun(s, p);
      && (forall i :: |s| - k <= i < |s| ==> p(s[i]))
      && (k < |s| ==> !p(s[|s| - k - 1]))
      && ((forall i :: 0 <= i < |s| ==> p(s[i])) ==> k == |s|)
    decreases |s|
  {
    if s != [] && p(s[|s| - 1]) {
      var s' := s[..|s| - 1];
      TrailingRunSpec(s', p);
      assert forall i :: 0 <= i < |s'| ==> s'[i] == s[i];
    }
  }

  /** The maximal runs of consecutive characters satisfying `p`, in text order. */
  function Runs(s: string, p: char -> bool): seq<string>
    decreases |s|
  {
    if s == [] then []
    else if !p(s[|s| - 1]) then Runs(s[..|s| - 1], p)
    else
      var k := TrailingRun(s, p);
      Runs(s[..|s| - k], p) + [s[|s| - k..]]
  }

  /** Every run is non-empty and made of qualifying characters. */
  lemma {:induction false} RunsQualify(s: string, p: char -> bool)
    ensures forall i :: 0 <= i < |Runs(s, p)| ==>
      Runs(s, p)[i] != [] && forall j :: 0 <= j < |Runs(s, p)[i]| ==> p(Runs(s, p)[i][j])
    decreases |s|
  {
    if s != [] {
      RunsUnfold(s, p);
      if !p(s[|s| - 1]) {
        RunsQualify(s[..|s| - 1], p);
      } else {
        var k := TrailingRun(s, p);
        TrailingRunSpec(s, p);
        RunsQualify(s[..|s| - k], p);
        var run := s[|s| - k..];
        assert run != [] && forall j :: 0 <= j < |run| ==> p(run[j]);
      }
    }
  }

  /** The characters of `s` that satisfy `p`, in order. */
  function Keep(s: string, p: char -> bool): string {
    if s == [] then [] else Keep(s[..|s| - 1], p) + (if p(s[|s| - 1]) then [s[|s| - 1]] else [])
  }

  function Concat(ss: seq<string>): string {
    if ss == [] then [] else Concat(ss[..|ss| - 1]) + ss[|ss| - 1]
  }

  lemma {:induction false} KeepAll(s: string, p: char -> bool)
    requires forall i :: 0 <= i < |s| ==> p(s[i])
    ensures Keep(s, p) == s
  {
    if s != [] {
      KeepAll(s[..|s| - 1], p);
      assert s[..|s| - 1] + [s[|s| - 1]] == s;
    }
  }

  lemma {:induction false} KeepAppend(a: string, b: string, p: char -> bool)
    ensures Keep(a + b, p) == Keep(a, p) + Keep(b, p)
    decreases |b|
  {
    if b != [] {
      var b' := b[..|b| - 1];
      assert (a + b)[..|a + b| - 1] == a + b';
      KeepAppend(a, b', p);
    } else {
      assert a + b == a;
    }
  }

  /** Runs lose only the characters not satisfying `p`. */
  lemma {:induction false} RunsConcat(s: string, p: char -> bool)
    ensures Concat(Runs(s, p)) == Keep(s, p)
    decreases |s|
  {
    if s == [] {
    } else if !p(s[|s| - 1]) {
      RunsConcat(s[..|s| - 1], p);
    } else {
      var k := TrailingRun(s, p);
      var front, run := s[..|s| - k], s[|s| - k..];
      RunsConcat(front, p);
      var rs := Runs(front, p) + [run];
      assert rs[..|rs| - 1] == Runs(front, p);
      TrailingRunSpec(s, p);
      KeepAll(run, p);
      assert s == front + run;
      KeepAppend(front, run, p);
    }
  }

  /** Runs on both sides of a separator character do not merge. */
  lemma {:induction false} RunsSeparated(a: string, c: char, b: string, p: char -> bool)
    requires !p(c)
    ensures Runs(a + [c] + b, p) == Runs(a, p) + Runs(b, p)
    decreases |b|
  {
    var x := a + [c];
    var s := x + b;
    assert a + [c] + b == s;
    if b == [] {
      assert s == x && x[..|x| - 1] == a;
      RunsUnfold(x, p);
    } else if !p(b[|b| - 1]) {
      var b' := b[..|b| - 1];
      assert s[..|s| - 1] == x + b';
      RunsUnfold(s, p);
      RunsUnfold(b, p);
      RunsSeparated(a, c, b', p);
      assert a + [c] + b' == x + b';
    } else {
      RunsSeparatedRun(x, b, p);
      RunsUnfold(b, p);
      var b' := b[..|b| - TrailingRun(b, p)];
      RunsSeparated(a, c, b', p);
      assert a + [c] + b' == x + b';
    }
  }

  /** The last run of `b` is the last run of `x + b` when `x` ends in a
      character that does not qualify. */
  lemma RunsSeparatedRun(x: string, b: string, p: char -> bool)
    requires x != [] && !p(x[|x| - 1]) && b != [] && p(b[|b| - 1])
    ensures Runs(x + b, p) == Runs(x + b[..|b| - TrailingRun(b, p)], p) + [b[|b| - TrailingRun(b, p)..]]
  {
    var s := x + b;
    var k := TrailingRun(b, p);
    TrailingRunSame(x, b, p);
    assert s[|s| - 1] == b[|b| - 1];
    assert s[..|s| - k] == x + b[..|b| - k];
    assert s[|s| - k..] == b[|b| - k..];
  }

  /** One unfolding of Runs at the end of a non-empty text. */
  lemma RunsUnfold(s: string, p: char -> bool)
    requires s != []
    ensures !p(s[|s| - 1]) ==> Runs(s, p) == Runs(s[..|s| - 1], p)
    ensures p(s[|s| - 1]) ==>
      Runs(s, p) == Runs(s[..|s| - TrailingRun(s, p)], p) + [s[|s| - TrailingRun(s, p)..]]
  {
  }

  /** A run that ends inside `b` does not reach past a separator before `b`. */
  lemma {:induction false} TrailingRunSame(a: string, b: string, p: char -> bool)
    requires a != [] && !p(a[|a| - 1])
    ensures TrailingRun(a + b, p) == TrailingRun(b, p)
    decreases |b|
  {
    var s := a + b;
    if b == [] {
      assert s == a;
    } else if p(b[|b| - 1]) {
      assert s[..|s| - 1] == a + b[..|b| - 1];
      TrailingRunSame(a, b[..|b| - 1], p);
    }
  }

  /** A text made only of qualifying characters is one run. */
  lemma {:induction false} RunsSingle(s: string, p: char -> bool)
    requires s != [] && forall i :: 0 <= i < |s| ==> p(s[i])
    ensures Runs(s, p) == [s]
  {
    TrailingRunSpec(s, p);
    assert s[..0] == [];
  }

  /** A text with no qualifying character has no run. */
  lemma {:induction false} RunsNone(s: string, p: char -> bool)
    requires forall i :: 0 <= i < |s| ==> !p(s[i])
    ensures Runs(s, p) == []
    decreases |s|
  {
    if s != [] {
      RunsNone(s[..|s| - 1], p);
    }
  }

  /** There is no run exactly when no character qualifies. */
  lemma {:induction false} RunsEmpty(s: string, p: char -> bool)
    ensures Runs(s, p) == [] <==> forall i :: 0 <= i < |s| ==> !p(s[i])
    decreases |s|
  {
    if s != [] {
      var s' := s[..|s| - 1];
      RunsEmpty(s', p);
      assert forall i :: 0 <= i < |s'| ==> s'[i] == s[i];
    }
  }

  /** The last run is a piece of `s` at some index `j`, not preceded by a
      qualifying character and followed by none. */
  lemma {:induction false} RunsLast(s: string, p: char -> bool) returns (j: nat)
    requires Runs(s, p) != []
    ensures var w := Runs(s, p)[|Runs(s, p)| - 1];
      j + |w| <= |s| && s[j..j + |w|] == w &&
      (j == 0 || !p(s[j - 1])) &&
      forall i :: j + |w| <= i < |s| ==> !p(s[i])
    decreases |s|
  {
    RunsUnfold(s, p);
    if !p(s[|s| - 1]) {
      var s' := s[..|s| - 1];
      j := RunsLast(s', p);
      assert forall i :: 0 <= i < |s'| ==> s'[i] == s[i];
    } else {
      var k := TrailingRun(s, p);
      TrailingRunSpec(s, p);
      j := |s| - k;
      assert Runs(s, p)[|Runs(s, p)| - 1] == s[j..];
    }
  }

  /** The first run is a piece of `s` at some index `j`: no qualifying
      character comes before it, and it ends at the end of `s` or before a
      character that does not qualify. */
  lemma {:induction false} RunsFirst(s: string, p: char -> bool) returns (j: nat, w: string)
    requires Runs(s, p) != []
    ensures FirstPiece(s, p, j, w)
    decreases |s|
  {
    if !p(s[|s| - 1]) {
      j, w := RunsFirst(s[..|s| - 1], p);
      FirstPieceDropLast(s, p, j, w);
    } else if Runs(s[..|s| - TrailingRun(s, p)], p) == [] {
      j, w := FirstPieceTrailing(s, p);
    } else {
      var front := s[..|s| - TrailingRun(s, p)];
      TrailingRunSpec(s, p);
      assert front[|front| - 1] == s[|s| - TrailingRun(s, p) - 1];
      RunsUnfold(front, p);
      j, w := RunsFirst(front[..|front| - 1], p);
      FirstPieceBeforeTrailing(s, p, j, w);
    }
  }

  /** `w` is the first run of `s`, found at index `j`, with nothing
      qualifying before it and nothing qualifying right after it. */
  predicate FirstPiece(s: string, p: char -> bool, j: nat, w: string) {
    && Runs(s, p) != [] && w == Runs(s, p)[0]
    && j + |w| <= |s| && s[j..j + |w|] == w
    && (forall i :: 0 <= i < j ==> !p(s[i]))
    && (j + |w| == |s| || !p(s[j + |w|]))
  }

  lemma FirstPieceDropLast(s: string, p: char -> bool, j: nat, w: string)
    requires s != [] && !p(s[|s| - 1]) && FirstPiece(s[..|s| - 1], p, j, w)
    ensures FirstPiece(s, p, j, w)
  {
    RunsUnfold(s, p);
    FirstPieceExtends(s, s[..|s| - 1], w, p, j);
  }

  lemma FirstPieceTrailing(s: string, p: char -> bool) returns (j: nat, w: string)
    requires s != [] && p(s[|s| - 1]) && Runs(s[..|s| - TrailingRun(s, p)], p) == []
    ensures FirstPiece(s, p, j, w)
  {
    RunsUnfold(s, p);
    var k := TrailingRun(s, p);
    TrailingRunSpec(s, p);
    var front := s[..|s| - k];
    RunsEmpty(front, p);
    j, w := |s| - k, s[|s| - k..];
    assert Runs(s, p) == [w];
    assert s[j..j + |w|] == w;
    assert forall i :: 0 <= i < j ==> front[i] == s[i];
  }

  lemma FirstPieceBeforeTrailing(s: string, p: char -> bool, j: nat, w: string)
    requires s != [] && p(s[|s| - 1])
    requires var front := s[..|s| - TrailingRun(s, p)];
      front != [] && FirstPiece(front[..|front| - 1], p, j, w)
    ensures FirstPiece(s, p, j, w)
  {
    RunsUnfold(s, p);
    var k := TrailingRun(s, p);
    TrailingRunSpec(s, p);
    var front := s[..|s| - k];
    var front' := front[..|front| - 1];
    // `front` ends in the character that stops the trailing run.
    assert front[|front| - 1] == s[|s| - k - 1];
    RunsUnfold(front, p);
    assert Runs(s, p) == Runs(front', p) + [s[|s| - k..]];
    assert front' == s[..|front'|];
    FirstPieceExtends(s, front', w, p, j);
  }

  /** A piece of a prefix that ends at the prefix's end or before a
      character that does not qualify still does so in the whole text, when
      the text goes on with a character that does not qualify. */
  lemma FirstPieceExtends(s: string, t: string, w: string, p: char -> bool, j: nat)
    requires |t| < |s| && t == s[..|t|] && !p(s[|t|])
    requires j + |w| <= |t| && t[j..j + |w|] == w
    requires forall i :: 0 <= i < j ==> !p(t[i])
    requires j + |w| == |t| || !p(t[j + |w|])
    ensures j + |w| <= |s| && s[j..j + |w|] == w
    ensures forall i :: 0 <= i < j ==> !p(s[i])
    ensures j + |w| == |s| || !p(s[j + |w|])
  {
    assert forall i :: 0 <= i < |t| ==> t[i] == s[i];
    assert s[j..j + |w|] == t[j..j + |w|];
  }

  /** Texts that meet at a character that does not qualify keep their runs
      apart. */
  lemma RunsJoin(a: string, b: string, p: char -> bool)
    requires (a != [] && !p(a[|a| - 1])) || (b != [] && !p(b[0]))
    ensures Runs(a + b, p) == Runs(a, p) + Runs(b, p)
  {
    if a != [] && !p(a[|a| - 1]) {
      RunsJoinAfter(a[..|a| - 1], a[|a| - 1], b, p);
      assert a[..|a| - 1] + [a[|a| - 1]] == a;
    } else {
      RunsJoinBefore(a, b[0], b[1..], p);
      assert [b[0]] + b[1..] == b;
    }
  }

  lemma RunsJoinAfter(a: string, c: char, b: string, p: char -> bool)
    requires !p(c)
    ensures Runs(a + [c] + b, p) == Runs(a + [c], p) + Runs(b, p)
  {
    RunsSeparated(a, c, b, p);
    RunsSeparated(a, c, [], p);
    assert a + [c] + [] == a + [c];
  }

  lemma RunsJoinBefore(a: string, c: char, b: string, p: char -> bool)
    requires !p(c)
    ensures Runs(a + ([c] + b), p) == Runs(a, p) + Runs([c] + b, p)
  {
    RunsSeparated(a, c, b, p);
    var none: string := [];
    RunsSeparated(none, c, b, p);
    assert none + [c] + b == [c] + b;
    assert a + ([c] + b) == a + [c] + b;
  }

  /** A run at the start of a text, stopped by a character that does not
      qualify or by the end, is its first run. */
  lemma RunsLeading(w: string, rest: string, p: char -> bool)
    requires w != [] && forall i :: 0 <= i < |w| ==> p(w[i])
    requires rest == [] || !p(rest[0])
    ensures Runs(w + rest, p) == [w] + Runs(rest, p)
  {
    RunsSingle(w, p);
    if rest != [] {
      RunsJoin(w, rest, p);
    } else {
      assert w + rest == w;
    }
  }

  /** Characters that do not qualify add no run in front of a text. */
  lemma RunsAfterNone(x: string, rest: string, p: char -> bool)
    requires forall i :: 0 <= i < |x| ==> !p(x[i])
    ensures Runs(x + rest, p) == Runs(rest, p)
  {
    RunsNone(x, p);
    if x != [] {
      RunsJoin(x, rest, p);
    } else {
      assert x + rest == rest;
    }
  }

  /** Two runs apart from each other, with nothing qualifying before the
      first, are the first two runs of the text. */
  lemma RunsOfTwoPieces(a: string, first: string, gap: string, second: string, b: string, p: char -> bool)
    requires forall i :: 0 <= i < |a| ==> !p(a[i])
    requires first != [] && forall i :: 0 <= i < |first| ==> p(first[i])
    requires gap != [] && forall i :: 0 <= i < |gap| ==> !p(gap[i])
    requires second != [] && forall i :: 0 <= i < |second| ==> p(second[i])
    requires b == [] || !p(b[0])
    ensures var runs := Runs(a + (first + (gap + (second + b))), p);
      |runs| >= 2 && runs[0] == first && runs[1] == second && runs[2..] == Runs(b, p)
  {
    var rest := gap + (second + b);
    RunsStartingWith(gap, second, b, p);
    assert rest[0] == gap[0];
    RunsStartingWith(a, first, rest, p);
    var runs := Runs(a + (first + rest), p);
    assert runs[1..] == Runs(rest, p);
  }

  /** Text without qualifying characters, a run, then text that does not
      continue the run: the run comes first. */
  lemma RunsStartingWith(x: string, w: string, rest: string, p: char -> bool)
    requires forall i :: 0 <= i < |x| ==> !p(x[i])
    requires w != [] && forall i :: 0 <= i < |w| ==> p(w[i])
    requires rest == [] || !p(rest[0])
    ensures Runs(x + (w + rest), p) == [w] + Runs(rest, p)
  {
    RunsLeading(w, rest, p);
    RunsAfterNone(x, w + rest, p);
  }

  /** Python's `s.split()`: the maximal runs of non-whitespace characters. */
  function Words(s: string): (r: seq<string>)
    ensures forall i :: 0 <= i < |r| ==> r[i] != [] && forall j :: 0 <= j < |r[i]| ==> !IsSpace(r[i][j])
  {
    RunsQualify(s, IsNotSpace);
    Runs(s, IsNotSpace)
  }

  /** Python's `re.findall(r'\d+', s)`: the maximal runs of digits. */
  function DigitRuns(s: string): (r: seq<string>)
    ensures forall i :: 0 <= i < |r| ==> r[i] != [] && AllDigits(r[i])
  {
    RunsQualify(s, IsDigit);
    Runs(s, IsDigit)
  }

  /** `re.search(r'\d+', text).group()`: the first run of digits, or the
      AttributeError of calling `group` on the `None` of a failed search. */
  function FirstDigitRun(text: string): (r: Result<string>)
    ensures r.Ok? <==> HasDigit(text)
    ensures r.Ok? ==> DigitRuns(text) != [] && r.value == DigitRuns(text)[0] && r.value != [] && AllDigits(r.value)
    ensures r.Err? ==> r.error.AttributeError?
  {
    var runs := DigitRuns(text);
    RunsEmpty(text, IsDigit);
    if runs != [] then Ok(runs[0]) else Err(AttributeError("'NoneType' object has no attribute 'group'"))
  }

  /** The match is the leftmost run of digits, taken whole: no digit comes
      before it and none right after it. */
  lemma FirstDigitRunSpec(text: string) returns (j: nat)
    requires HasDigit(text)
    ensures var w := FirstDigitRun(text).value;
      && j + |w| <= |text| && text[j..j + |w|] == w
      && (forall i :: 0 <= i < j ==> !IsDigit(text[i]))
      && (j + |w| == |text| || !IsDigit(text[j + |w|]))
  {
    RunsEmpty(text, IsDigit);
    var w;
    j, w := RunsFirst(text, IsDigit);
  }

  // ------------------------------------------------------------ numbers

  function DigitValue(c: char): nat
    requires IsDigit(c)
  {
    (c as int) - ('0' as int)
  }

  /** `int(ds)` for a non-empty string of ASCII digits. */
  function DecimalValue(ds: string): nat
    requires AllDigits(ds)
  {
    if ds == [] then 0 else 10 * DecimalValue(ds[..|ds| - 1]) + DigitValue(ds[|ds| - 1])
  }

  /** `str(n)` for a natural number. */
  function NatToDecimal(n: nat): (r: string)
    ensures r != [] && AllDigits(r)
    ensures DecimalValue(r) == n
  {
    var last := ['0' + (n % 10) as char];
    if n < 10 then last
    else
      var front := NatToDecimal(n / 10);
      var r := front + last;
      assert r[..|r| - 1] == front;
      r
  }

  /** `str(i)` for any integer. */
  function IntToString(i: int): (r: string)
    ensures r != []
    ensures i >= 0 ==> AllDigits(r) && DecimalValue(r) == i
    ensures i < 0 ==> r[0] == '-' && AllDigits(r[1..]) && DecimalValue(r[1..]) == -i
  {
    if i >= 0 then NatToDecimal(i)
    else
      var r := "-" + NatToDecimal(-i);
      assert r[1..] == NatToDecimal(-i);
      r
  }

  /** The ValueError raised when `got` values are unpacked into `expected`
      names. */
  function UnpackError(expected: nat, got: nat): Exception {
    if got < expected then
      ValueError("not enough values to unpack (expected " + NatToDecimal(expected) + ", got " + NatToDecimal(got) + ")")
    else
      ValueError("too many values to unpack (expected " + NatToDecimal(expected) + ")")
  }
}
