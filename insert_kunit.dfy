/**
 * The KUnit scaffolding tool (tools/testing/kunit/insert_kunit.py).
 *
 * Given the path of a C source file, the tool registers a new KUnit test
 * for it: it appends a sub-directory rule and a coverage line to the
 * parent Makefile, a Kconfig block to the parent Kconfig, and creates (or
 * appends to) kunit_test/Makefile and kunit_test/<stem>_test.c.  Every
 * insertion is skipped when the text is already present, comparing with
 * all whitespace runs collapsed to one space.
 *
 * The file system is a class holding a map from path to contents and the
 * set of existing directories; the template provider is a function value.
 */
module InsertKunit {
  import opened Wrappers

  /** The sub-directory that receives the tests. */
  const TEST_PATH: string := "kunit_test"

  // ---------------------------------------------------------------------
  // Strings
  // ---------------------------------------------------------------------

  /** `pat` occurs in `s` starting at index `i`. */
  predicate OccursAt(pat: string, s: string, i: nat)
  {
    i + |pat| <= |s| && s[i..i + |pat|] == pat
  }

  /** The second part of a concatenation occurs in it after the first. */
  lemma OccursAfter(a: string, b: string)
    ensures OccursAt(b, a + b, |a|)
  {
    assert (a + b)[|a|..|a| + |b|] == b;
  }

  /** Python's `pat in s`. */
  predicate Contains(s: string, pat: string)
  {
    exists i | 0 <= i <= |s| :: OccursAt(pat, s, i)
  }

  /** Python's str.replace(old, new) for a non-empty `old`: left to right, non-overlapping. */
  function ReplaceAll(s: string, pat: string, rep: string): (r: string)
    requires |pat| > 0
    ensures !Contains(s, pat) ==> r == s
    decreases |s|
  {
    if |s| < |pat| then s
    else if s[..|pat|] == pat then
      assert OccursAt(pat, s, 0);
      rep + ReplaceAll(s[|pat|..], pat, rep)
    else
      assert forall i | 0 <= i <= |s[1..]| :: OccursAt(pat, s[1..], i) ==> OccursAt(pat, s, i + 1);
      [s[0]] + ReplaceAll(s[1..], pat, rep)
  }

  /** str.replace('-', '_'). */
  function DashToUnderscore(s: string): (r: string)
    ensures |r| == |s|
    ensures forall i :: 0 <= i < |s| ==> r[i] == (if s[i] == '-' then '_' else s[i])
  {
    if s == [] then [] else [if s[0] == '-' then '_' else s[0]] + DashToUnderscore(s[1..])
  }

  function UpperChar(c: char): char
  {
    if 'a' <= c <= 'z' then (c as int - 'a' as int + 'A' as int) as char else c
  }

  /** str.upper() on ASCII letters; every other character is kept. */
  function Upper(s: string): (r: string)
    ensures |r| == |s|
    ensures forall i :: 0 <= i < |s| ==> r[i] == UpperChar(s[i])
  {
    if s == [] then [] else [UpperChar(s[0])] + Upper(s[1..])
  }

  // ---------------------------------------------------------------------
  // os.path on POSIX paths
  // ---------------------------------------------------------------------

  /** Index of the last `c` in `s`, or -1 (str.rfind). */
  function LastIndexOf(s: string, c: char): (r: int)
    ensures -1 <= r < |s|
    ensures r >= 0 ==> s[r] == c
    ensures forall k :: r < k < |s| ==> s[k] != c
  {
    if |s| == 0 then -1
    else if s[|s| - 1] == c then |s| - 1
    else LastIndexOf(s[..|s| - 1], c)
  }

  predicate AllSlashes(s: string)
  {
    forall i :: 0 <= i < |s| ==> s[i] == '/'
  }

  function RStripSlashes(s: string): (r: string)
    ensures |r| <= |s| && r == s[..|r|]
    ensures r == [] || r[|r| - 1] != '/'
    ensures forall k :: |r| <= k < |s| ==> s[k] == '/'
  {
    if s == [] || s[|s| - 1] != '/' then s else RStripSlashes(s[..|s| - 1])
  }

  /** os.path.split: the part after the last '/', and the part before it
      with trailing slashes removed unless it consists of slashes only. */
  function Split(p: string): (r: (string, string))
    ensures '/' !in r.1
    ensures |r.1| <= |p|
    ensures r.1 == p[|p| - |r.1|..]
    ensures '/' !in p ==> r == ("", p)
  {
    var i := LastIndexOf(p, '/') + 1;
    var head := p[..i];
    (if head != [] && !AllSlashes(head) then RStripSlashes(head) else head, p[i..])
  }

  /** The root of os.path.splitext for a name without '/': the name up to
      its last '.', unless every character before that '.' is a '.'. */
  function StripExt(name: string): (r: string)
    ensures |r| <= |name| && r == name[..|r|]
  {
    var d := LastIndexOf(name, '.');
    if d > 0 && exists k | 0 <= k < d :: name[k] != '.' then name[..d] else name
  }

  /** os.path.join(a, b) for two components. */
  function Join(a: string, b: string): (r: string)
  {
    if |b| > 0 && b[0] == '/' then b
    else if a == [] || a[|a| - 1] == '/' then a + b
    else a + "/" + b
  }

  // ---------------------------------------------------------------------
  // Whitespace-normalised containment (TestConstructor.__is_contain)
  // ---------------------------------------------------------------------

  /** The characters str.split() with no argument separates on. */
  predicate IsSpace(c: char)
  {
    c == ' ' || c == '\t' || c == '\n' || c == '\r' || c == '\U{B}' || c == '\U{C}'
    || ('\U{1C}' <= c <= '\U{1F}') || c == '\U{85}' || c == '\U{A0}'
  }

  /** One step of squeezing: a whitespace character extends the output by one
      space unless it already ends in one; any other character is copied. */
  function SqueezeStep(acc: string, c: char): string
  {
    if IsSpace(c) then (if |acc| > 0 && acc[|acc| - 1] == ' ' then acc else acc + [' '])
    else acc + [c]
  }

  /** Every whitespace run of `s` replaced by a single space. */
  function Squeeze(s: string): string
    decreases |s|
  {
    if |s| == 0 then [] else SqueezeStep(Squeeze(s[..|s| - 1]), s[|s| - 1])
  }

  /** Number of leading spaces. */
  function Lead(s: string): (r: nat)
    ensures r <= |s|
    ensures forall j :: 0 <= j < r ==> s[j] == ' '
    ensures r < |s| ==> s[r] != ' '
  {
    SpacesFrom(s, 0)
  }

  /** Number of spaces from offset i on. */
  function SpacesFrom(s: string, i: nat): (r: nat)
    requires i <= |s|
    ensures i + r <= |s|
    ensures forall j :: i <= j < i + r ==> s[j] == ' '
    ensures i + r < |s| ==> s[i + r] != ' '
    decreases |s| - i
  {
    if i == |s| || s[i] != ' ' then 0 else 1 + SpacesFrom(s, i + 1)
  }

  /** Number of trailing spaces. */
  function Trail(s: string): (r: nat)
    ensures r <= |s|
    ensures forall j :: |s| - r <= j < |s| ==> s[j] == ' '
    ensures r < |s| ==> s[|s| - 1 - r] != ' '
  {
    SpacesBefore(s, |s|)
  }

  /** Number of spaces just before offset h. */
  function SpacesBefore(s: string, h: nat): (r: nat)
    requires h <= |s|
    ensures r <= h
    ensures forall j :: h - r <= j < h ==> s[j] == ' '
    ensures r < h ==> s[h - 1 - r] != ' '
  {
    if h == 0 || s[h - 1] != ' ' then 0 else 1 + SpacesBefore(s, h - 1)
  }

  /** `s` without its leading and trailing spaces. */
  function Trim(s: string): (r: string)
    ensures r == [] || (r[0] != ' ' && r[|r| - 1] != ' ')
    ensures r != [] ==> OccursAt(r, s, Lead(s))
  {
    if Lead(s) == |s| then []
    else
      assert s[Lead(s)] != ' ';
      s[Lead(s)..|s| - Trail(s)]
  }

  /** Python's ' '.join(s.split()). */
  function Collapse(s: string): string
  {
    Trim(Squeeze(s))
  }

  /** __is_contain: the fragment, collapsed, is a substring of the file, collapsed. */
  predicate IsContain(content: string, file: string)
  {
    Contains(Collapse(file), Collapse(content))
  }

  /** What __append_content / __write_content leave in an existing file. */
  function AppendIfAbsent(file: string, content: string): string
  {
    if IsContain(content, file) then file else file + content
  }

  lemma DropPrefix(p: string, q: string)
    ensures (p + q)[|p|..] == q
  {
  }

  lemma SqueezeStepExtends(a: string, b: string, c: char)
    requires |b| > 0
    ensures SqueezeStep(a + b, c) == a + SqueezeStep(b, c)
  {
    assert (a + b)[|a + b| - 1] == b[|b| - 1];
  }

  lemma SqueezeLast(s: string)
    ensures (|Squeeze(s)| == 0) == (|s| == 0)
    ensures |s| > 0 ==> Squeeze(s)[|Squeeze(s)| - 1] == (if IsSpace(s[|s| - 1]) then ' ' else s[|s| - 1])
  {
  }

  lemma SqueezeFirst(s: string)
    requires |s| > 0
    ensures |Squeeze(s)| > 0
    ensures Squeeze(s)[0] == (if IsSpace(s[0]) then ' ' else s[0])
    decreases |s|
  {
    if |s| > 1 {
      SqueezeFirst(s[..|s| - 1]);
      assert s[..|s| - 1][0] == s[0];
    }
  }

  /** 1 when `f` ends and `c` starts with whitespace, else 0. */
  function Junction(f: string, c: string): nat
  {
    if |f| > 0 && IsSpace(f[|f| - 1]) && |c| > 0 && IsSpace(c[0]) then 1 else 0
  }

  /** SqueezeConcat for a single character appended. */
  lemma SqueezeConcatOne(f: string, x: char)
    ensures Junction(f, [x]) <= |Squeeze([x])| && Squeeze(f + [x]) == Squeeze(f) + Squeeze([x])[Junction(f, [x])..]
  {
    assert (f + [x])[..|f|] == f;
    assert [x][..0] == [];
    SqueezeLast(f);
  }

  /** SqueezeConcat carried over one more character of `c`. */
  lemma SqueezeConcatStep(f: string, c: string, x: char)
    requires |c| > 0
    requires Junction(f, c) <= |Squeeze(c)| && Squeeze(f + c) == Squeeze(f) + Squeeze(c)[Junction(f, c)..]
    ensures Junction(f, c + [x]) <= |Squeeze(c + [x])|
    ensures Squeeze(f + (c + [x])) == Squeeze(f) + Squeeze(c + [x])[Junction(f, c + [x])..]
  {
    var c2 := c + [x];
    assert Junction(f, c2) == Junction(f, c) by { assert c2[0] == c[0]; }
    assert f + c2 == (f + c) + [x];
    SqueezeSnoc(f + c, x);
    SqueezeSnoc(c, x);
    if Junction(f, c) == |Squeeze(c)| {
      EmptyTailFacts(f, c);
    }
    StepCombine(Squeeze(f), Squeeze(c), Junction(f, c), x);
  }

  lemma SqueezeSnoc(s: string, x: char)
    ensures Squeeze(s + [x]) == SqueezeStep(Squeeze(s), x)
  {
    assert (s + [x])[..|s|] == s;
  }

  /** When the junction swallows all of Squeeze(c), c squeezes to one space
      and f's squeezed text already ends in one. */
  lemma EmptyTailFacts(f: string, c: string)
    requires |c| > 0 && Junction(f, c) == |Squeeze(c)|
    ensures Squeeze(c) == [' '] && |Squeeze(f)| > 0 && Squeeze(f)[|Squeeze(f)| - 1] == ' '
  {
    SqueezeFirst(c);
    SqueezeLast(f);
  }

  /** The squeezing step on the joined text, in terms of the parts. */
  lemma StepCombine(a: string, sc: string, d: nat, x: char)
    requires d <= |sc|
    requires d == |sc| ==> sc == [' '] && |a| > 0 && a[|a| - 1] == ' '
    ensures d <= |SqueezeStep(sc, x)|
    ensures SqueezeStep(a + sc[d..], x) == a + SqueezeStep(sc, x)[d..]
  {
    var tail := sc[d..];
    if |tail| > 0 {
      SqueezeStepExtends(a, tail, x);
      assert sc == sc[..d] + tail;
      SqueezeStepExtends(sc[..d], tail, x);
      DropPrefix(sc[..d], SqueezeStep(tail, x));
    } else {
      assert a + tail == a;
    }
  }

  /** Squeezing a concatenation squeezes each part; the two spaces meeting at
      the junction merge into one. */
  lemma {:induction false} SqueezeConcat(f: string, c: string)
    ensures Junction(f, c) <= |Squeeze(c)| && Squeeze(f + c) == Squeeze(f) + Squeeze(c)[Junction(f, c)..]
    decreases |c|
  {
    if |c| == 0 {
      assert f + c == f;
    } else if |c| == 1 {
      assert c == [c[0]];
      SqueezeConcatOne(f, c[0]);
    } else {
      var c', x := c[..|c| - 1], c[|c| - 1];
      assert c == c' + [x];
      SqueezeConcat(f, c');
      SqueezeConcatStep(f, c', x);
    }
  }

  lemma SubstringTrans(a: string, b: string, c: string, i: nat, j: nat)
    requires OccursAt(a, b, i) && OccursAt(b, c, j)
    ensures OccursAt(a, c, i + j)
  {
    forall k | 0 <= k < |a| ensures a[k] == c[i + j + k] {
      assert a[k] == b[i + k];
      assert b[i + k] == c[j + i + k];
    }
    assert c[i + j..i + j + |a|] == a;
  }

  /** A non-space character lies at or after the leading spaces. */
  lemma LeadBound(s: string, p: nat)
    requires p < |s| && s[p] != ' '
    ensures Lead(s) <= p
  {
  }

  /** A non-space character lies before the trailing spaces. */
  lemma TrailBound(s: string, q: nat)
    requires q < |s| && s[q] != ' '
    ensures q < |s| - Trail(s)
  {
  }

  lemma OccursAtIndex(x: string, y: string, p: nat, k: nat)
    requires OccursAt(x, y, p) && k < |x|
    ensures y[p + k] == x[k]
  {
    assert y[p..p + |x|][k] == y[p + k];
  }

  /** An occurrence inside a slice of `y` stays an occurrence in the slice. */
  lemma OccursInSlice(x: string, y: string, p: nat, l: nat, h: nat)
    requires OccursAt(x, y, p) && l <= p && p + |x| <= h <= |y|
    ensures OccursAt(x, y[l..h], p - l)
  {
    var t := y[l..h];
    forall k | 0 <= k < |x| ensures t[p - l + k] == x[k] {
      OccursAtIndex(x, y, p, k);
    }
    assert t[p - l..p - l + |x|] == x;
  }

  /** A text with no space at either end that occurs in `y` also occurs in
      `y` trimmed. */
  lemma OccursInTrim(x: string, y: string, p: nat)
    requires OccursAt(x, y, p)
    requires x == [] || (x[0] != ' ' && x[|x| - 1] != ' ')
    ensures Contains(Trim(y), x)
  {
    if x == [] {
      var t := Trim(y);
      assert t[0..0] == x;
      OccursContains(x, t, 0);
    } else {
      OccursAtIndex(x, y, p, 0);
      OccursAtIndex(x, y, p, |x| - 1);
      LeadBound(y, p);
      TrailBound(y, p + |x| - 1);
      OccursBetween(x, y, p);
    }
  }

  /** An occurrence between the leading and the trailing spaces survives
      trimming. */
  lemma OccursBetween(x: string, y: string, p: nat)
    requires OccursAt(x, y, p) && Lead(y) <= p && p + |x| <= |y| - Trail(y) && p < |y|
    ensures Contains(Trim(y), x)
  {
    TrimSlice(y);
    OccursInSlice(x, y, p, Lead(y), |y| - Trail(y));
    OccursContains(x, y[Lead(y)..|y| - Trail(y)], p - Lead(y));
  }

  lemma OccursContains(x: string, s: string, i: nat)
    requires OccursAt(x, s, i)
    ensures Contains(s, x)
  {
  }

  /** A text that is not all spaces trims to the part between its leading
      and trailing spaces. */
  lemma TrimSlice(s: string)
    requires Lead(s) < |s|
    ensures Lead(s) <= |s| - Trail(s) && Trim(s) == s[Lead(s)..|s| - Trail(s)]
  {
  }

  /** Trimming `s` keeps its part after `d` leading spaces. */
  lemma TrimInSuffix(s: string, d: nat)
    requires d == 0 || (d == 1 && |s| > 0 && s[0] == ' ')
    ensures Contains(s[d..], Trim(s))
  {
    var x := Trim(s);
    if x != [] {
      var l := Lead(s);
      assert d <= l;
      OccursInSlice(x, s, l, d, |s|);
      assert s[d..|s|] == s[d..];
    } else {
      assert s[d..][0..0] == x;
      assert OccursAt(x, s[d..], 0);
    }
  }

  /** The collapsed text of `c` occurs in the squeezed text of `f + c`. */
  lemma CollapseInSqueezedSuffix(f: string, c: string)
    ensures Contains(Squeeze(f + c), Collapse(c))
  {
    var sc := Squeeze(c);
    var d := Junction(f, c);
    var whole := Squeeze(f + c);
    SqueezeConcat(f, c);
    if d == 1 {
      SqueezeFirst(c);
    }
    var x := Collapse(c);
    var sfx := sc[d..];
    assert Contains(sfx, x) by {
      TrimInSuffix(sc, d);
    }
    var i :| 0 <= i <= |sfx| && OccursAt(x, sfx, i);
    OccursAfter(Squeeze(f), sfx);
    SubstringTrans(x, sfx, whole, i, |Squeeze(f)|);
  }

  /** Collapsing keeps every collapsed part of a text: the collapsed middle
      `c` occurs in the collapsed whole `f + c + g`. */
  lemma CollapseInfix(f: string, c: string, g: string)
    ensures Contains(Collapse(f + c + g), Collapse(c))
  {
    var x := Collapse(c);
    var prefix := Squeeze(f + c);
    var whole := Squeeze(f + c + g);
    CollapseInSqueezedSuffix(f, c);
    var i :| 0 <= i <= |prefix| && OccursAt(x, prefix, i);
    SqueezeConcat(f + c, g);
    assert OccursAt(prefix, whole, 0);
    SubstringTrans(x, prefix, whole, i, 0);
    OccursInTrim(x, whole, i);
  }

  /** Appending keeps containment: a fragment present in a file stays present
      whatever is appended after it. */
  lemma ContainStable(content: string, file: string, more: string)
    requires IsContain(content, file)
    ensures IsContain(content, file + more)
  {
    CollapseInfix([], file, more);
    assert [] + file + more == file + more;
    ContainsTrans(Collapse(content), Collapse(file), Collapse(file + more));
  }

  /** Containment is transitive. */
  lemma ContainsTrans(a: string, b: string, c: string)
    requires Contains(b, a) && Contains(c, b)
    ensures Contains(c, a)
  {
    var i :| 0 <= i <= |b| && OccursAt(a, b, i);
    var j :| 0 <= j <= |c| && OccursAt(b, c, j);
    SubstringTrans(a, b, c, i, j);
  }

  /** After appending a fragment, the file contains it. */
  lemma ContainAfterAppend(file: string, content: string)
    ensures IsContain(content, file + content)
  {
    CollapseInfix(file, content, []);
    assert file + content + [] == file + content;
  }

  /** __append_content/__write_content are idempotent: a second call with the
      same content finds it present and leaves the file as it is. */
  lemma {:induction false} AppendIfAbsentIdempotent(file: string, content: string)
    ensures IsContain(content, AppendIfAbsent(file, content))
    ensures AppendIfAbsent(AppendIfAbsent(file, content), content) == AppendIfAbsent(file, content)
  {
    if !IsContain(content, file) { ContainAfterAppend(file, content); }
  }

  /** Whitespace layout does not matter: two fragments that differ only in
      how their words are spaced are present in exactly the same files. */
  lemma ContainIgnoresLayout(a: string, b: string, file: string)
    requires Squeeze(a) == Squeeze(b)
    ensures IsContain(a, file) == IsContain(b, file)
  {
  }

  // ---------------------------------------------------------------------
  // Reading a file line by line, and the build guard of a Makefile line
  // ---------------------------------------------------------------------

  function Concat(ls: seq<string>): string
  {
    if ls == [] then [] else ls[0] + Concat(ls[1..])
  }

  /** The lines a text file iterates over: up to and including each '\n',
      and what follows the last one.  A character other than '\n' joins the
      first line of the rest of the text. */
  function SplitLines(s: string): seq<string>
  {
    if s == [] then []
    else
      var rest := SplitLines(s[1..]);
      if s[0] == '\n' || rest == [] then [[s[0]]] + rest else [[s[0]] + rest[0]] + rest[1..]
  }

  /** Putting the lines back together gives the file; each line is non-empty
      and holds no '\n' but at its end. */
  lemma {:induction false} SplitLinesShape(s: string)
    ensures Concat(SplitLines(s)) == s
    ensures (SplitLines(s) == []) == (s == [])
    ensures forall i :: 0 <= i < |SplitLines(s)| ==> |SplitLines(s)[i]| > 0
    ensures forall i, k :: 0 <= i < |SplitLines(s)| && 0 <= k < |SplitLines(s)[i]| - 1 ==> SplitLines(s)[i][k] != '\n'
  {
    if s != [] {
      var rest := SplitLines(s[1..]);
      SplitLinesShape(s[1..]);
      var r := SplitLines(s);
      if s[0] == '\n' || rest == [] {
        assert r == [[s[0]]] + rest;
        assert Concat(r) == [s[0]] + Concat(rest);
        forall i | 1 <= i < |r| ensures r[i] == rest[i - 1] {}
      } else {
        assert r == [[s[0]] + rest[0]] + rest[1..];
        assert Concat(rest) == rest[0] + Concat(rest[1..]);
        assert Concat(r) == [s[0]] + rest[0] + Concat(rest[1..]);
        forall i | 1 <= i < |r| ensures r[i] == rest[i] {}
        forall k | 0 <= k < |r[0]| - 1 ensures r[0][k] != '\n' {
          if k > 0 { assert r[0][k] == rest[0][k - 1]; }
        }
      }
    }
  }

  const OBJ_OPEN: string := "obj-$("

  /** No newline in line[j..k]. */
  predicate NoNewline(line: string, j: nat, k: nat)
    requires j <= k <= |line|
  {
    forall m :: j <= m < k ==> line[m] != '\n'
  }

  /** The ')' that closes the lazy group `(.*?)\)` started at `j`: the first
      ')' at or after `j`, provided no newline comes before it ('.' does not
      match a newline). */
  function CloseAt(line: string, j: nat): (r: Option<nat>)
    requires j <= |line|
    ensures r.Some? ==> j <= r.value < |line| && line[r.value] == ')' && NoNewline(line, j, r.value)
                        && forall k :: j <= k < r.value ==> line[k] != ')'
    ensures r.None? ==> forall k :: j <= k < |line| && line[k] == ')' ==> !NoNewline(line, j, k)
    decreases |line| - j
  {
    if j == |line| || line[j] == '\n' then None
    else if line[j] == ')' then Some(j)
    else CloseAt(line, j + 1)
  }

  /** The pattern obj-\$\((.*?)\) matches at index `i`. */
  predicate MatchesAt(line: string, i: nat)
  {
    OccursAt(OBJ_OPEN, line, i) && CloseAt(line, i + |OBJ_OPEN|).Some?
  }

  /** The leftmost index at or after `i` where the pattern matches (re.search). */
  function MatchStart(line: string, i: nat): (r: Option<nat>)
    requires i <= |line|
    ensures r.Some? ==> i <= r.value && MatchesAt(line, r.value)
                        && forall q :: i <= q < r.value ==> !MatchesAt(line, q)
    ensures r.None? ==> forall q :: i <= q ==> !MatchesAt(line, q)
    decreases |line| - i
  {
    if MatchesAt(line, i) then Some(i)
    else if i == |line| then None
    else MatchStart(line, i + 1)
  }

  /** ConfigNameExtractor.__extract_config: group 1 of the first match. */
  function ExtractConfig(line: string): Option<string>
  {
    match MatchStart(line, 0)
    case None => None
    case Some(p) => Some(line[p + |OBJ_OPEN|..CloseAt(line, p + |OBJ_OPEN|).value])
  }

  /** The captured guard is the text between the leftmost "obj-$(" that is
      closed on its line and the first ')' after it. */
  lemma ExtractConfigSpec(line: string)
    ensures ExtractConfig(line).Some? ==>
              var g := ExtractConfig(line).value;
              Contains(line, OBJ_OPEN + g + ")") && ')' !in g && '\n' !in g
    ensures ExtractConfig(line).None? <==> forall q :: 0 <= q ==> !MatchesAt(line, q)
  {
    match MatchStart(line, 0)
    case None =>
    case Some(p) =>
      CapturedGuard(line, p, CloseAt(line, p + |OBJ_OPEN|).value);
  }

  /** The text between an "obj-$(" at p and the first ')' after it, on one line. */
  lemma CapturedGuard(line: string, p: nat, e: nat)
    requires OccursAt(OBJ_OPEN, line, p) && p + |OBJ_OPEN| <= e < |line| && line[e] == ')'
    requires NoNewline(line, p + |OBJ_OPEN|, e)
    requires forall k :: p + |OBJ_OPEN| <= k < e ==> line[k] != ')'
    ensures var g := line[p + |OBJ_OPEN|..e];
            Contains(line, OBJ_OPEN + g + ")") && ')' !in g && '\n' !in g
  {
    var j := p + |OBJ_OPEN|;
    var g := line[j..e];
    assert OBJ_OPEN + g + ")" == line[p..e + 1];
    OccursContains(OBJ_OPEN + g + ")", line, p);
    assert forall k :: 0 <= k < |g| ==> g[k] == line[j + k];
  }

  /** The guard __search_file leaves in self.result: that of the last line
      containing `obj` whose pattern matches; None if there is none. */
  function LastGuard(lines: seq<string>, obj: string): Option<string>
  {
    if lines == [] then None
    else
      var l := lines[|lines| - 1];
      if Contains(l, obj) && ExtractConfig(l).Some? then ExtractConfig(l)
      else LastGuard(lines[..|lines| - 1], obj)
  }

  /** Last match wins: lines appended after a file can only override its guard. */
  lemma {:induction false} LastGuardAppend(a: seq<string>, b: seq<string>, obj: string)
    ensures LastGuard(a + b, obj) == if LastGuard(b, obj).Some? then LastGuard(b, obj) else LastGuard(a, obj)
    decreases |b|
  {
    if b == [] {
      assert a + b == a;
    } else {
      assert (a + b)[..|a + b| - 1] == a + b[..|b| - 1];
      LastGuardAppend(a, b[..|b| - 1], obj);
    }
  }

  /** Of two matching lines, the later one decides, whatever comes between. */
  lemma LaterGuardWins(a: seq<string>, l1: string, mid: seq<string>, l2: string, c: seq<string>, obj: string)
    requires Contains(l1, obj) && ExtractConfig(l1).Some?
    requires Contains(l2, obj) && ExtractConfig(l2).Some?
    requires LastGuard(c, obj) == None
    ensures LastGuard(a + [l1] + mid + [l2] + c, obj) == ExtractConfig(l2)
  {
    LastGuardAppend(a + [l1] + mid + [l2], c, obj);
    assert (a + [l1] + mid + [l2])[..|a + [l1] + mid + [l2]| - 1] == a + [l1] + mid;
  }

  // ---------------------------------------------------------------------
  // Names derived from the source path (TemplateGenerator.__create_path)
  // ---------------------------------------------------------------------

  /** The three texts of the template provider, opaque here. */
  datatype Skeletons = Skeletons(kconfigSkeleton: string, makefileSkeleton: string, testSkeleton: string)

  /** The fields TemplateGenerator sets once, in its constructor. */
  datatype TemplateGenerator = TemplateGenerator(
    dirName: string,
    fileName: string,
    filePrefix: string,
    testfileName: string,
    testObjectFile: string,
    kconfigName: string,
    skeletons: Skeletons)

  function KconfigName(filePrefix: string): string
  {
    "CONFIG_" + Upper(DashToUnderscore(filePrefix)) + "_TEST"
  }

  function CreatePath(path: string, postfix: string, createSkeletons: (string, string) -> Skeletons): TemplateGenerator
  {
    var dirName := Split(path).0;
    var fileName := Split(path).1;
    var filePrefix := StripExt(fileName);
    var testObjectFile := filePrefix + postfix + ".o";
    TemplateGenerator(dirName, fileName, filePrefix,
                      Join(dirName, filePrefix + postfix + ".c"),
                      testObjectFile,
                      KconfigName(filePrefix),
                      createSkeletons(DashToUnderscore(filePrefix), testObjectFile))
  }

  lemma RStripOneSlash(d: string)
    requires d != [] && d[|d| - 1] != '/'
    ensures RStripSlashes(d + "/") == d
  {
    assert (d + "/")[..|d + "/"| - 1] == d;
  }

  lemma SplitSourcePath(dir: string, name: string)
    requires dir != [] && dir[|dir| - 1] != '/'
    requires '/' !in name
    ensures Split(dir + "/" + name) == (dir, name)
  {
    var path := dir + "/" + name;
    assert LastIndexOf(path, '/') == |dir| by {
      assert path[|dir|] == '/';
      assert forall k :: |dir| < k < |path| ==> path[k] == name[k - |dir| - 1];
    }
    assert path[..|dir| + 1] == dir + "/";
    assert path[|dir| + 1..] == name;
    assert !AllSlashes(dir + "/") by { assert (dir + "/")[|dir| - 1] != '/'; }
    RStripOneSlash(dir);
  }

  lemma StripExtOfC(stem: string)
    requires stem != [] && '.' !in stem
    ensures StripExt(stem + ".c") == stem
  {
    var name := stem + ".c";
    assert LastIndexOf(name, '.') == |stem|;
    assert name[0] != '.';
    assert name[..|stem|] == stem;
  }

  lemma KconfigNameShape(stem: string)
    ensures var sym := KconfigName(stem);
            forall i :: 0 <= i < |sym| ==> sym[i] != '-' && !('a' <= sym[i] <= 'z')
  {
    var sym := KconfigName(stem);
    var u := Upper(DashToUnderscore(stem));
    forall i | 0 <= i < |sym| ensures sym[i] != '-' && !('a' <= sym[i] <= 'z') {
      if 7 <= i < 7 + |u| { assert sym[i] == u[i - 7]; }
    }
  }

  lemma TestDriverPath(dir: string, stem: string)
    requires dir != [] && dir[|dir| - 1] != '/'
    requires stem != [] && stem[0] != '/'
    ensures Join(Join(dir, TEST_PATH), stem + "_test" + ".c") == dir + "/kunit_test/" + stem + "_test.c"
  {
    var tp := Join(dir, TEST_PATH);
    assert tp == dir + "/kunit_test";
    assert tp[|tp| - 1] == 't';
    var drv := stem + "_test" + ".c";
    assert drv[0] == stem[0];
    assert Join(tp, drv) == tp + "/" + drv;
  }

  /** The fields of a TemplateGenerator, each from the source path. */
  lemma CreatePathFields(path: string, postfix: string, createSkeletons: (string, string) -> Skeletons)
    ensures var t := CreatePath(path, postfix, createSkeletons);
            && t.dirName == Split(path).0 && t.fileName == Split(path).1
            && t.filePrefix == StripExt(Split(path).1) && t.kconfigName == KconfigName(t.filePrefix)
            && t.testObjectFile == t.filePrefix + postfix + ".o"
  {
  }

  lemma SourceNames(dir: string, stem: string)
    requires dir != [] && dir[|dir| - 1] != '/'
    requires stem != [] && '/' !in stem && '.' !in stem
    ensures Split(dir + "/" + stem + ".c") == (dir, stem + ".c")
    ensures StripExt(stem + ".c") == stem
  {
    var name := stem + ".c";
    assert dir + "/" + stem + ".c" == dir + "/" + name;
    SplitSourcePath(dir, name);
    StripExtOfC(stem);
  }

  /** The object file name of a test: the two suffixes read as one. */
  lemma TestObjectName(stem: string, postfix: string, ext: string)
    requires postfix == "-test" && ext == ".o"
    ensures stem + postfix + ext == stem + "-test.o"
  {
    assert postfix + ext == "-test.o";
    assert stem + postfix + ext == stem + (postfix + ext);
  }

  /** For a source `<dir>/<stem>.c`, the symbol is CONFIG_ + the stem upper-cased
      with '-' turned into '_' + _TEST, which has no '-' and no lower-case
      letter; the test source is `<dir>/kunit_test/<stem>_test.c`, whose stem
      keeps its dashes. */
  lemma NameDerivation(dir: string, stem: string, createSkeletons: (string, string) -> Skeletons)
    requires dir != [] && dir[|dir| - 1] != '/'
    requires stem != [] && '/' !in stem && '.' !in stem
    ensures var t := CreatePath(dir + "/" + stem + ".c", "-test", createSkeletons);
            && t.dirName == dir
            && t.filePrefix == stem
            && t.kconfigName == "CONFIG_" + Upper(DashToUnderscore(stem)) + "_TEST"
            && (forall i :: 0 <= i < |t.kconfigName| ==> t.kconfigName[i] != '-' && !('a' <= t.kconfigName[i] <= 'z'))
            && t.testObjectFile == stem + "-test.o"
            && Join(Join(t.dirName, TEST_PATH), t.filePrefix + "_test" + ".c") == dir + "/kunit_test/" + stem + "_test.c"
  {
    var path := dir + "/" + stem + ".c";
    var t := CreatePath(path, "-test", createSkeletons);
    assert t.dirName == dir && t.filePrefix == stem && t.kconfigName == KconfigName(stem)
           && t.testObjectFile == stem + "-test.o" by {
      SourceNames(dir, stem);
      CreatePathFields(path, "-test", createSkeletons);
      TestObjectName(stem, "-test", ".o");
    }
    KconfigNameShape(stem);
    assert stem[0] != '/' by { assert stem[0] in stem; }
    TestDriverPath(dir, stem);
  }

  /** A stem with a dash: my-driver.c gets the symbol CONFIG_MY_DRIVER_TEST
      (NameDerivation gives its test source the name my-driver_test.c, dash
      kept). */
  lemma MyDriverSymbol(stem: string)
    requires stem == "my-driver"
    ensures KconfigName(stem) == "CONFIG_MY_DRIVER_TEST"
  {
    var d := DashToUnderscore(stem);
    assert d == "my_driver";
    var u := Upper(d);
    assert u == "MY_DRIVER";
    assert KconfigName(stem) == "CONFIG_" + u + "_TEST";
  }

  /** The stem of the script's docstring example: my_driver gets the symbol
      CONFIG_MY_DRIVER_TEST. */
  lemma MyDriverUnderscoreSymbol(stem: string)
    requires stem == "my_driver"
    ensures KconfigName(stem) == "CONFIG_MY_DRIVER_TEST"
  {
    assert DashToUnderscore(stem) == stem;
    var u := Upper(stem);
    assert u == "MY_DRIVER";
    assert KconfigName(stem) == "CONFIG_" + u + "_TEST";
  }

  /** The tree drawn in the script's docstring: for `<dir>/my_driver.c` the
      test source is `<dir>/kunit_test/my_driver_test.c`, and the symbol that
      guards it is CONFIG_MY_DRIVER_TEST. */
  lemma DocumentedTree(dir: string, stem: string, createSkeletons: (string, string) -> Skeletons)
    requires dir != [] && dir[|dir| - 1] != '/'
    requires stem == "my_driver"
    ensures var t := CreatePath(dir + "/" + stem + ".c", "-test", createSkeletons);
            && t.kconfigName == "CONFIG_MY_DRIVER_TEST"
            && Join(Join(t.dirName, TEST_PATH), t.filePrefix + "_test" + ".c") == dir + "/kunit_test/" + stem + "_test.c"
  {
    NameDerivation(dir, stem, createSkeletons);
    MyDriverUnderscoreSymbol(stem);
  }

  // ---------------------------------------------------------------------
  // The file system and the insertion helpers
  // ---------------------------------------------------------------------

  /** How the process ends a step: it goes on, or sys.exit(code) / an
      uncaught exception (which Python reports with status 1). */
  datatype Status = Ok | Exit(code: int)

  /** A snapshot of the file system: file contents by path, and directories. */
  datatype FsState = FsState(files: map<string, string>, dirs: set<string>)

  datatype Outcome = Outcome(status: Status, fs: FsState)

  /** os.path.exists. */
  predicate Exists(fs: FsState, p: string)
  {
    p in fs.files || p in fs.dirs
  }

  /** The directory that would hold `p` exists ("" is the working directory). */
  predicate ParentExists(fs: FsState, p: string)
  {
    Split(p).0 == [] || Split(p).0 in fs.dirs
  }

  /** os.mkdir: fails when the path exists or its parent does not. */
  function MkdirSpec(fs: FsState, p: string): Outcome
  {
    if Exists(fs, p) || !ParentExists(fs, p) then Outcome(Exit(1), fs)
    else Outcome(Ok, fs.(dirs := fs.dirs + {p}))
  }

  /** __append_content: exit 1 when the target is not a file (a missing path
      is reported and exits; a directory fails to open); otherwise append the
      content unless it is already there. */
  function AppendContentSpec(fs: FsState, target: string, content: string): Outcome
  {
    if target !in fs.files then Outcome(Exit(1), fs)
    else Outcome(Ok, fs.(files := fs.files[target := AppendIfAbsent(fs.files[target], content)]))
  }

  /** __write_content: like __append_content for an existing file; a missing
      file is created holding exactly the content. */
  function WriteContentSpec(fs: FsState, target: string, content: string): Outcome
  {
    if target in fs.files then AppendContentSpec(fs, target, content)
    else if target in fs.dirs || !ParentExists(fs, target) then Outcome(Exit(1), fs)
    else Outcome(Ok, fs.(files := fs.files[target := content]))
  }

  lemma ContainSelf(c: string)
    ensures IsContain(c, c)
  {
    CollapseInfix([], c, []);
    assert [] + c + [] == c;
  }

  /** __append_content: a missing target exits with status 1 and changes
      nothing; otherwise the content is present afterwards and a second call
      with the same content changes nothing. */
  lemma {:induction false} AppendContentIdempotent(fs: FsState, target: string, content: string)
    ensures AppendContentSpec(fs, target, content).status == (if target in fs.files then Ok else Exit(1))
    ensures target !in fs.files ==> AppendContentSpec(fs, target, content).fs == fs
    ensures var o := AppendContentSpec(fs, target, content);
            o.status == Ok ==> IsContain(content, o.fs.files[target])
                               && AppendContentSpec(o.fs, target, content) == o
  {
    if target in fs.files {
      AppendIfAbsentIdempotent(fs.files[target], content);
      var o := AppendContentSpec(fs, target, content);
      assert o.fs.files == o.fs.files[target := AppendIfAbsent(o.fs.files[target], content)];
    }
  }

  /** __write_content creates a missing file with the content, and a second
      call with the same content changes nothing. */
  lemma {:induction false} WriteContentIdempotent(fs: FsState, target: string, content: string)
    ensures target !in fs.files && target !in fs.dirs && ParentExists(fs, target) ==>
              WriteContentSpec(fs, target, content).fs.files == fs.files[target := content]
    ensures var o := WriteContentSpec(fs, target, content);
            o.status == Ok ==> IsContain(content, o.fs.files[target])
                               && WriteContentSpec(o.fs, target, content) == o
  {
    var o := WriteContentSpec(fs, target, content);
    if target in fs.files {
      AppendContentIdempotent(fs, target, content);
    } else if o.status == Ok {
      ContainSelf(content);
      AppendIfAbsentIdempotent(content, content);
      assert o.fs.files[target] == content;
      assert o.fs.files == o.fs.files[target := AppendIfAbsent(content, content)];
    }
  }

  /** The file system, which the tool changes by appending, writing and
      creating a directory. */
  class FileSystem {
    var files: map<string, string>
    var dirs: set<string>

    constructor (files: map<string, string>, dirs: set<string>)
      ensures this.files == files && this.dirs == dirs
    {
      this.files := files;
      this.dirs := dirs;
    }

    function State(): FsState
      reads this
    {
      FsState(files, dirs)
    }

    /** open(p, 'a').write(s) on an existing file. */
    method Append(p: string, s: string)
      requires p in files
      modifies this
      ensures files == old(files)[p := old(files)[p] + s] && dirs == old(dirs)
    {
      files := files[p := files[p] + s];
    }

    /** open(p, 'w').write(s) on a missing file. */
    method Create(p: string, s: string)
      modifies this
      ensures files == old(files)[p := s] && dirs == old(dirs)
    {
      files := files[p := s];
    }

    method Mkdir(p: string) returns (st: Status)
      modifies this
      ensures Outcome(st, State()) == MkdirSpec(old(State()), p)
    {
      if Exists(State(), p) || !ParentExists(State(), p) {
        st := Exit(1);
      } else {
        dirs := dirs + {p};
        st := Ok;
      }
    }
  }

  // ---------------------------------------------------------------------
  // ConfigNameExtractor and TestConstructor
  // ---------------------------------------------------------------------

  /** ConfigNameExtractor.__search_file: exit 1 when the Makefile is not a
      readable file, else the guard of the last matching line. */
  function GuardSpec(fs: FsState, mkfile: string, obj: string): (Status, Option<string>)
  {
    if mkfile !in fs.files then (Exit(1), None) else (Ok, LastGuard(SplitLines(fs.files[mkfile]), obj))
  }

  /** ConfigNameExtractor: reads the Makefile line by line; every line that
      contains `obj` and matches the guard pattern overwrites the result. */
  method SearchFile(fs: FileSystem, obj: string, target: string) returns (st: Status, result: Option<string>)
    ensures (st, result) == GuardSpec(fs.State(), target, obj)
  {
    if target !in fs.files {
      return Exit(1), None;
    }
    var lines := SplitLines(fs.files[target]);
    result := None;
    var i := 0;
    while i < |lines|
      invariant 0 <= i <= |lines|
      invariant result == LastGuard(lines[..i], obj)
    {
      assert lines[..i + 1][..i] == lines[..i];
      if Contains(lines[i], obj) {
        var g := ExtractConfig(lines[i]);
        if g.Some? {
          result := g;
        }
      }
      i := i + 1;
    }
    assert lines[..|lines|] == lines;
    st := Ok;
  }

  const MK_CONTENT: string := "\nobj-$(CONFIG_KUNIT)\t\t\t+= kunit_test/\n"

  function GcovContent(filePrefix: string): string
  {
    "GCOV_PROFILE_" + filePrefix + ".o\t\t:=y\n"
  }

  /** append_makefile: the sub-directory rule, then the coverage line. */
  function AppendMakefileSpec(fs: FsState, dirName: string, filePrefix: string): Outcome
  {
    var mk := Join(dirName, "Makefile");
    var o := AppendContentSpec(fs, mk, MK_CONTENT);
    if o.status.Exit? then o else AppendContentSpec(o.fs, mk, GcovContent(filePrefix))
  }

  /** The probe append_kconfig looks for: "config " and the symbol with every
      "CONFIG_" removed (str.replace removes them all). */
  function KconfigProbe(kconfigName: string): string
  {
    "config " + ReplaceAll(kconfigName, "CONFIG_", "")
  }

  /** str.replace on a string that starts with the pattern: the leading
      occurrence becomes the replacement and the rest is replaced on. */
  lemma ReplaceLeading(pat: string, t: string, rep: string)
    requires |pat| > 0
    ensures ReplaceAll(pat + t, pat, rep) == rep + ReplaceAll(t, pat, rep)
  {
    assert (pat + t)[..|pat|] == pat;
    assert (pat + t)[|pat|..] == t;
  }

  /** For a file name that does not spell out CONFIG_, the probe is
      "config " and the test symbol without its CONFIG_ prefix. */
  lemma KconfigProbeStripsPrefix(stem: string)
    requires !Contains(Upper(DashToUnderscore(stem)) + "_TEST", "CONFIG_")
    ensures KconfigProbe(KconfigName(stem)) == "config " + Upper(DashToUnderscore(stem)) + "_TEST"
  {
    var t := Upper(DashToUnderscore(stem)) + "_TEST";
    assert KconfigName(stem) == "CONFIG_" + t;
    ReplaceLeading("CONFIG_", t, "");
    assert "" + t == t;
  }

  /** append_kconfig: nothing when the probe is present, else the Kconfig
      block between newlines; a missing Kconfig fails on opening (exit 1). */
  function AppendKconfigSpec(fs: FsState, dirName: string, kconfigName: string, kconfigSkeleton: string): Outcome
  {
    var kc := Join(dirName, "Kconfig");
    if kc !in fs.files then Outcome(Exit(1), fs)
    else if IsContain(KconfigProbe(kconfigName), fs.files[kc]) then Outcome(Ok, fs)
    else AppendContentSpec(fs, kc, "\n" + kconfigSkeleton + "\n")
  }

  /** The two lines of kunit_test/Makefile: the first gated by the source's
      own guard (a missing or empty guard is falsy: 'y'), the second by the
      test's symbol. */
  function TestMakefileLines(guard: Option<string>, kconfigName: string, testDriverName: string): (string, string)
  {
    var obj := testDriverName + ".o";
    var tgt := if guard.Some? && guard.value != "" then "$(" + guard.value + ")" else "y";
    ("obj-" + tgt + "\t\t+= " + obj + "\n", "obj-$(" + kconfigName + ")\t\t+= " + obj + "\n")
  }

  /** write_test_makefile: the two lines in order; an exit stops the process. */
  function WriteTestMakefileSpec(fs: FsState, testPath: string, lines: (string, string)): Outcome
  {
    var mk := Join(testPath, "Makefile");
    var o := WriteContentSpec(fs, mk, lines.0);
    if o.status.Exit? then o else WriteContentSpec(o.fs, mk, lines.1)
  }

  lemma TestMakefileFirstLine(guard: Option<string>, kconfigName: string, testDriverName: string)
    ensures var ls := TestMakefileLines(guard, kconfigName, testDriverName);
            && (guard.Some? && guard.value != "" ==> ls.0 == "obj-$(" + guard.value + ")\t\t+= " + testDriverName + ".o\n")
            && (guard == None ==> ls.0 == "obj-y\t\t+= " + testDriverName + ".o\n")
            && ls.1 == "obj-$(" + kconfigName + ")\t\t+= " + testDriverName + ".o\n"
  {
  }

  /** A TestConstructor after its constructor has run: the derived names,
      the guard found in the parent Makefile, and the file system it edits. */
  class TestConstructor {
    const tmplts: TemplateGenerator
    const dirName: string
    const filePrefix: string
    const testPath: string
    const testDriverName: string
    const tgtConfigName: Option<string>
    const additional: bool
    const fs: FileSystem

    constructor (tmplts: TemplateGenerator, tgtConfigName: Option<string>, additional: bool, fs: FileSystem)
      ensures this.tmplts == tmplts && this.tgtConfigName == tgtConfigName
      ensures this.additional == additional && this.fs == fs
      ensures dirName == tmplts.dirName && filePrefix == tmplts.filePrefix
      ensures testPath == Join(tmplts.dirName, TEST_PATH)
      ensures testDriverName == tmplts.filePrefix + "_test"
    {
      this.tmplts := tmplts;
      this.dirName := tmplts.dirName;
      this.filePrefix := tmplts.filePrefix;
      this.testPath := Join(tmplts.dirName, TEST_PATH);
      this.testDriverName := tmplts.filePrefix + "_test";
      this.tgtConfigName := tgtConfigName;
      this.additional := additional;
      this.fs := fs;
    }

    /** __is_contain on an existing file. */
    method IsContainFile(content: string, fpath: string) returns (r: bool)
      requires fpath in fs.files
      ensures r == Contains(Collapse(fs.files[fpath]), Collapse(content))
    {
      r := IsContain(content, fs.files[fpath]);
    }

    method AppendContent(content: string, target: string) returns (st: Status)
      modifies fs
      ensures Outcome(st, fs.State()) == AppendContentSpec(old(fs.State()), target, content)
    {
      if target !in fs.files {
        return Exit(1);
      }
      var present := IsContainFile(content, target);
      if present {
        return Ok;
      }
      fs.Append(target, content);
      st := Ok;
    }

    method WriteContent(content: string, target: string) returns (st: Status)
      modifies fs
      ensures Outcome(st, fs.State()) == WriteContentSpec(old(fs.State()), target, content)
    {
      if target in fs.files {
        var present := IsContainFile(content, target);
        if present {
          return Ok;
        }
        fs.Append(target, content);
      } else if target in fs.dirs || !ParentExists(fs.State(), target) {
        return Exit(1);
      } else {
        fs.Create(target, content);
      }
      st := Ok;
    }

    method AppendMakefile() returns (st: Status)
      modifies fs
      ensures Outcome(st, fs.State()) == AppendMakefileSpec(old(fs.State()), dirName, filePrefix)
    {
      var mkPath := Join(dirName, "Makefile");
      st := AppendContent(MK_CONTENT, mkPath);
      if st.Exit? {
        return;
      }
      st := AppendContent(GcovContent(filePrefix), mkPath);
    }

    method AppendKconfig() returns (st: Status)
      modifies fs
      ensures Outcome(st, fs.State()) == AppendKconfigSpec(old(fs.State()), dirName, tmplts.kconfigName, tmplts.skeletons.kconfigSkeleton)
    {
      var mkPath := Join(dirName, "Kconfig");
      if mkPath !in fs.files {
        return Exit(1);
      }
      var present := IsContainFile(KconfigProbe(tmplts.kconfigName), mkPath);
      if present {
        return Ok;
      }
      st := AppendContent("\n" + tmplts.skeletons.kconfigSkeleton + "\n", mkPath);
    }

    method WriteTestMakefile() returns (st: Status)
      modifies fs
      ensures Outcome(st, fs.State()) == WriteTestMakefileSpec(old(fs.State()), testPath, TestMakefileLines(tgtConfigName, tmplts.kconfigName, testDriverName))
    {
      var mkPath := Join(testPath, "Makefile");
      var lines := TestMakefileLines(tgtConfigName, tmplts.kconfigName, testDriverName);
      st := WriteContent(lines.0, mkPath);
      if st.Exit? {
        return;
      }
      st := WriteContent(lines.1, mkPath);
    }

    method WriteTestDriver() returns (st: Status)
      modifies fs
      ensures Outcome(st, fs.State()) == WriteContentSpec(old(fs.State()), Join(testPath, testDriverName + ".c"), tmplts.skeletons.testSkeleton)
    {
      st := WriteContent(tmplts.skeletons.testSkeleton, Join(testPath, testDriverName + ".c"));
    }
  }

  // ---------------------------------------------------------------------
  // main()
  // ---------------------------------------------------------------------

  /** The four insertions, in order; the first exit ends the run. */
  function InsertSteps(fs: FsState, t: TemplateGenerator, guard: Option<string>): Outcome
  {
    var testPath := Join(t.dirName, TEST_PATH);
    var o1 := AppendMakefileSpec(fs, t.dirName, t.filePrefix);
    if o1.status.Exit? then o1 else
    var o2 := AppendKconfigSpec(o1.fs, t.dirName, t.kconfigName, t.skeletons.kconfigSkeleton);
    if o2.status.Exit? then o2 else
    var o3 := WriteTestMakefileSpec(o2.fs, testPath, TestMakefileLines(guard, t.kconfigName, t.filePrefix + "_test"));
    if o3.status.Exit? then o3 else
    WriteContentSpec(o3.fs, Join(testPath, t.filePrefix + "_test" + ".c"), t.skeletons.testSkeleton)
  }

  /** One run of the tool on `path`: derive the names, extract the guard
      (exit 1 without a parent Makefile), create kunit_test/ unless it
      exists, then insert. */
  function RunSpec(fs: FsState, path: string, createSkeletons: (string, string) -> Skeletons): Outcome
  {
    var t := CreatePath(path, "-test", createSkeletons);
    var g := GuardSpec(fs, Join(t.dirName, "Makefile"), t.filePrefix + ".o");
    if g.0.Exit? then Outcome(Exit(1), fs) else
    var testPath := Join(t.dirName, TEST_PATH);
    var o := if Exists(fs, testPath) then Outcome(Ok, fs) else MkdirSpec(fs, testPath);
    if o.status.Exit? then o else InsertSteps(o.fs, t, g.1)
  }

  /** main() after os.path.abspath: returns the exit status and the path of
      the test source it reports. */
  method Run(fs: FileSystem, path: string, createSkeletons: (string, string) -> Skeletons) returns (st: Status, report: string)
    modifies fs
    ensures Outcome(st, fs.State()) == RunSpec(old(fs.State()), path, createSkeletons)
    ensures st == Ok ==> report == Join(Join(Split(path).0, TEST_PATH), CreatePath(path, "-test", createSkeletons).filePrefix + "_test" + ".c")
  {
    var tmplts := CreatePath(path, "-test", createSkeletons);
    var guard;
    st, guard := SearchFile(fs, tmplts.filePrefix + ".o", Join(tmplts.dirName, "Makefile"));
    if st.Exit? {
      return Exit(1), "";
    }
    var testPath := Join(tmplts.dirName, TEST_PATH);
    var additional := Exists(fs.State(), testPath);
    if !additional {
      st := fs.Mkdir(testPath);
      if st.Exit? {
        return st, "";
      }
    }
    var a := new TestConstructor(tmplts, guard, additional, fs);
    st := a.AppendMakefile();
    if st.Ok? {
      st := a.AppendKconfig();
    }
    if st.Ok? {
      st := a.WriteTestMakefile();
    }
    if st.Ok? {
      st := a.WriteTestDriver();
    }
    report := if st.Ok? then Join(Join(Split(path).0, TEST_PATH), a.testDriverName + ".c") else "";
  }

  // ---------------------------------------------------------------------
  // Running the tool twice
  // ---------------------------------------------------------------------

  /** A text that ends with a newline splits apart from what follows it. */
  lemma {:induction false} SplitLinesAppend(a: string, b: string)
    requires a == [] || a[|a| - 1] == '\n'
    ensures SplitLines(a + b) == SplitLines(a) + SplitLines(b)
  {
    if a == [] {
      assert a + b == b;
    } else {
      var a' := a[1..];
      assert (a + b)[1..] == a' + b;
      if a' == [] {
        assert a == ['\n'];
      } else {
        SplitLinesAppend(a', b);
        assert a'[|a'| - 1] == '\n';
        FirstLineJoin(a[0], SplitLines(a'), SplitLines(b), a[0] == '\n');
      }
    }
  }

  /** The first character joins the first line of x whether or not y follows. */
  lemma FirstLineJoin(c: char, x: seq<string>, y: seq<string>, nl: bool)
    requires x != []
    ensures (if nl || x + y == [] then [[c]] + (x + y) else [[c] + (x + y)[0]] + (x + y)[1..])
            == (if nl || x == [] then [[c]] + x else [[c] + x[0]] + x[1..]) + y
  {
    assert (x + y)[0] == x[0];
    assert (x + y)[1..] == x[1..] + y;
  }

  lemma {:induction false} ConcatChars(ls: seq<string>, c: char)
    requires c !in Concat(ls)
    ensures forall i :: 0 <= i < |ls| ==> c !in ls[i]
  {
    if ls != [] {
      assert Concat(ls) == ls[0] + Concat(ls[1..]);
      ConcatChars(ls[1..], c);
      forall i | 0 < i < |ls| ensures c !in ls[i] { assert ls[i] == ls[1..][i - 1]; }
    }
  }

  lemma NoCharNoContain(l: string, pat: string, k: nat)
    requires k < |pat| && pat[k] !in l
    ensures !Contains(l, pat)
  {
    forall i | 0 <= i <= |l| ensures !OccursAt(pat, l, i) {
      if i + |pat| <= |l| {
        assert l[i..i + |pat|][k] == l[i + k];
      }
    }
  }

  lemma {:induction false} LastGuardNone(ls: seq<string>, obj: string)
    requires forall i :: 0 <= i < |ls| ==> !Contains(ls[i], obj) || ExtractConfig(ls[i]).None?
    ensures LastGuard(ls, obj) == None
  {
    if ls != [] {
      LastGuardNone(ls[..|ls| - 1], obj);
    }
  }

  /** No line of a text without '.' mentions an object file, and no line of
      a text without '$' holds a guard: such text never sets the guard. */
  lemma NoGuardIn(x: string, obj: string, dot: nat)
    requires dot < |obj| && obj[dot] == '.'
    requires '.' !in x || '$' !in x
    ensures LastGuard(SplitLines(x), obj) == None
  {
    var ls := SplitLines(x);
    SplitLinesShape(x);
    if '.' !in x {
      ConcatChars(ls, '.');
      forall i | 0 <= i < |ls| ensures !Contains(ls[i], obj) { NoCharNoContain(ls[i], obj, dot); }
    } else {
      ConcatChars(ls, '$');
      forall i | 0 <= i < |ls| ensures ExtractConfig(ls[i]).None? {
        assert OBJ_OPEN[4] == '$';
        NoCharNoContain(ls[i], OBJ_OPEN, 4);
        ExtractConfigSpec(ls[i]);
      }
    }
    LastGuardNone(ls, obj);
  }

  lemma GuardAfterAppend(m: string, x: string, obj: string)
    requires m == [] || m[|m| - 1] == '\n'
    requires LastGuard(SplitLines(x), obj) == None
    ensures LastGuard(SplitLines(AppendIfAbsent(m, x)), obj) == LastGuard(SplitLines(m), obj)
  {
    if !IsContain(x, m) {
      SplitLinesAppend(m, x);
      LastGuardAppend(SplitLines(m), SplitLines(x), obj);
    }
  }

  /** The sub-directory rule holds no '.' and ends with a newline. */
  lemma MakefileRuleShape(mkc: string)
    requires mkc == MK_CONTENT
    ensures '.' !in mkc && mkc != [] && mkc[|mkc| - 1] == '\n'
  {
    assert mkc == "\nobj-$(CONFIG_KUNIT)\t\t\t+= kunit_test/\n";
  }

  /** The coverage line holds no '$' when the prefix has none, and ends with a newline. */
  lemma GcovLineShape(filePrefix: string, gc: string)
    requires gc == GcovContent(filePrefix) && '$' !in filePrefix
    ensures '$' !in gc && gc[|gc| - 1] == '\n'
  {
    assert gc == "GCOV_PROFILE_" + filePrefix + ".o\t\t:=y\n";
    forall i | 0 <= i < |gc| ensures gc[i] != '$' {
      if 13 <= i < 13 + |filePrefix| { assert gc[i] == filePrefix[i - 13]; }
    }
  }

  /** The lines append_makefile adds (a rule without '.', then a line
      without '$') to a Makefile that ends with a newline do not change the
      guard found in it. */
  lemma GuardAfterRule(m: string, mkc: string, gc: string, obj: string, dot: nat)
    requires m == [] || m[|m| - 1] == '\n'
    requires '.' !in mkc && mkc != [] && mkc[|mkc| - 1] == '\n'
    requires '$' !in gc
    requires dot < |obj| && obj[dot] == '.'
    ensures LastGuard(SplitLines(AppendIfAbsent(AppendIfAbsent(m, mkc), gc)), obj) == LastGuard(SplitLines(m), obj)
  {
    var m1 := AppendIfAbsent(m, mkc);
    assert (m1 == [] || m1[|m1| - 1] == '\n') && LastGuard(SplitLines(m1), obj) == LastGuard(SplitLines(m), obj) by {
      NoGuardIn(mkc, obj, dot);
      GuardAfterAppend(m, mkc, obj);
      if m1 != m {
        assert m1 == m + mkc;
        assert m1[|m1| - 1] == mkc[|mkc| - 1];
      }
    }
    NoGuardIn(gc, obj, dot);
    GuardAfterAppend(m1, gc, obj);
  }

  lemma JoinShape(a: string, b: string)
    requires b != [] && b[0] != '/'
    ensures Join(a, b) == a + b || Join(a, b) == a + "/" + b
    ensures |a| + |b| <= |Join(a, b)| <= |a| + |b| + 1
    ensures Join(a, b)[|Join(a, b)| - 1] == b[|b| - 1]
    ensures Join(a, b) != [] && (Join(a, b) == a + b ==> a == [] || a[|a| - 1] == '/')
  {
  }

  /** The four files a run edits are four different paths. */
  lemma RunPathsDistinct(dirName: string, driver: string)
    requires driver != [] && driver[0] != '/'
    ensures var tp := Join(dirName, TEST_PATH);
            var mk, kc, tmk, drv := Join(dirName, "Makefile"), Join(dirName, "Kconfig"), Join(tp, "Makefile"), Join(tp, driver + ".c");
            mk != kc && mk != tmk && mk != drv && kc != tmk && kc != drv && tmk != drv
  {
    var tp := Join(dirName, TEST_PATH);
    JoinShape(dirName, TEST_PATH);
    JoinShape(dirName, "Makefile");
    JoinShape(dirName, "Kconfig");
    JoinShape(tp, "Makefile");
    assert (driver + ".c")[0] == driver[0];
    JoinShape(tp, driver + ".c");
  }

  /** Everything a run inserts is present: a second run has nothing to add. */
  predicate Settled(fs: FsState, t: TemplateGenerator, guard: Option<string>)
  {
    var tp := Join(t.dirName, TEST_PATH);
    var mk := Join(t.dirName, "Makefile");
    var kc := Join(t.dirName, "Kconfig");
    var tmk := Join(tp, "Makefile");
    var drv := Join(tp, t.filePrefix + "_test" + ".c");
    var lines := TestMakefileLines(guard, t.kconfigName, t.filePrefix + "_test");
    && mk in fs.files && IsContain(MK_CONTENT, fs.files[mk]) && IsContain(GcovContent(t.filePrefix), fs.files[mk])
    && kc in fs.files && (IsContain(KconfigProbe(t.kconfigName), fs.files[kc])
                         || IsContain("\n" + t.skeletons.kconfigSkeleton + "\n", fs.files[kc]))
    && tmk in fs.files && IsContain(lines.0, fs.files[tmk]) && IsContain(lines.1, fs.files[tmk])
    && drv in fs.files && IsContain(t.skeletons.testSkeleton, fs.files[drv])
  }

  /** On a settled file system the insertions change nothing. */
  lemma SettledInsertNothing(fs: FsState, t: TemplateGenerator, guard: Option<string>)
    requires Settled(fs, t, guard)
    ensures InsertSteps(fs, t, guard) == Outcome(Ok, fs)
  {
    var tp := Join(t.dirName, TEST_PATH);
    var mk := Join(t.dirName, "Makefile");
    var kc := Join(t.dirName, "Kconfig");
    var tmk := Join(tp, "Makefile");
    var drv := Join(tp, t.filePrefix + "_test" + ".c");
    var lines := TestMakefileLines(guard, t.kconfigName, t.filePrefix + "_test");
    AppendPresent(fs, mk, MK_CONTENT);
    AppendPresent(fs, mk, GcovContent(t.filePrefix));
    assert AppendMakefileSpec(fs, t.dirName, t.filePrefix) == Outcome(Ok, fs);
    if !IsContain(KconfigProbe(t.kconfigName), fs.files[kc]) {
      AppendPresent(fs, kc, "\n" + t.skeletons.kconfigSkeleton + "\n");
    }
    assert AppendKconfigSpec(fs, t.dirName, t.kconfigName, t.skeletons.kconfigSkeleton) == Outcome(Ok, fs);
    AppendPresent(fs, tmk, lines.0);
    AppendPresent(fs, tmk, lines.1);
    assert WriteTestMakefileSpec(fs, tp, lines) == Outcome(Ok, fs);
    AppendPresent(fs, drv, t.skeletons.testSkeleton);
  }

  /** Appending a fragment already present changes nothing. */
  lemma AppendPresent(fs: FsState, target: string, content: string)
    requires target in fs.files && IsContain(content, fs.files[target])
    ensures AppendContentSpec(fs, target, content) == Outcome(Ok, fs)
    ensures WriteContentSpec(fs, target, content) == Outcome(Ok, fs)
  {
    assert fs.files[target := fs.files[target]] == fs.files;
  }

  /** Two appends to one existing file: both fragments end up in it, and no
      other file or directory changes. */
  lemma TwoAppends(fs: FsState, target: string, c1: string, c2: string)
    requires target in fs.files
    ensures var o1 := AppendContentSpec(fs, target, c1);
            var o := AppendContentSpec(o1.fs, target, c2);
            var v := AppendIfAbsent(AppendIfAbsent(fs.files[target], c1), c2);
            && o1.status == Ok && o.status == Ok
            && o.fs == fs.(files := fs.files[target := v])
            && IsContain(c1, v) && IsContain(c2, v)
  {
    var v1 := AppendIfAbsent(fs.files[target], c1);
    AppendIfAbsentIdempotent(fs.files[target], c1);
    AppendKeeps(v1, c1, c2);
    assert fs.files[target := v1][target := AppendIfAbsent(v1, c2)] == fs.files[target := AppendIfAbsent(v1, c2)];
  }

  /** A fragment present in a file stays present after any append, and the
      appended fragment is present too. */
  lemma AppendKeeps(v: string, c1: string, c2: string)
    requires IsContain(c1, v)
    ensures IsContain(c1, AppendIfAbsent(v, c2)) && IsContain(c2, AppendIfAbsent(v, c2))
  {
    AppendIfAbsentIdempotent(v, c2);
    if !IsContain(c2, v) {
      ContainStable(c1, v, c2);
    }
  }

  /** Two writes to one file: when both succeed the file holds both
      fragments, and no other file or directory changes. */
  lemma TwoWrites(fs: FsState, target: string, c1: string, c2: string)
    requires var o1 := WriteContentSpec(fs, target, c1);
             o1.status == Ok && WriteContentSpec(o1.fs, target, c2).status == Ok
    ensures var o1 := WriteContentSpec(fs, target, c1);
            var o := WriteContentSpec(o1.fs, target, c2);
            && target in o.fs.files && o.fs.dirs == fs.dirs
            && o.fs.files == fs.files[target := o.fs.files[target]]
            && IsContain(c1, o.fs.files[target]) && IsContain(c2, o.fs.files[target])
  {
    var o1 := WriteContentSpec(fs, target, c1);
    WriteFacts(fs, target, c1);
    WriteFacts(o1.fs, target, c2);
    var v1 := o1.fs.files[target];
    AppendKeeps(v1, c1, c2);
    var v2 := WriteContentSpec(o1.fs, target, c2).fs.files[target];
    assert fs.files[target := v1][target := v2] == fs.files[target := v2];
  }

  /** A successful write leaves the content in the target and changes no
      other file and no directory. */
  lemma WriteFacts(fs: FsState, target: string, c: string)
    requires WriteContentSpec(fs, target, c).status == Ok
    ensures var o := WriteContentSpec(fs, target, c);
            && target in o.fs.files && o.fs.dirs == fs.dirs
            && o.fs.files == fs.files[target := o.fs.files[target]]
            && IsContain(c, o.fs.files[target])
            && (target in fs.files ==> o.fs.files[target] == AppendIfAbsent(fs.files[target], c))
  {
    WriteContentIdempotent(fs, target, c);
  }

  /** append_makefile on an existing Makefile: both fragments are present
      afterwards and nothing else changes. */
  lemma AppendMakefileStep(fs: FsState, dirName: string, filePrefix: string)
    requires Join(dirName, "Makefile") in fs.files
    ensures var mk := Join(dirName, "Makefile");
            var o := AppendMakefileSpec(fs, dirName, filePrefix);
            var v := AppendIfAbsent(AppendIfAbsent(fs.files[mk], MK_CONTENT), GcovContent(filePrefix));
            && o.status == Ok && o.fs == fs.(files := fs.files[mk := v])
            && IsContain(MK_CONTENT, v) && IsContain(GcovContent(filePrefix), v)
  {
    TwoAppends(fs, Join(dirName, "Makefile"), MK_CONTENT, GcovContent(filePrefix));
  }

  /** append_kconfig, when it succeeds: the probe or the block is present
      afterwards and nothing else changes. */
  lemma AppendKconfigStep(fs: FsState, dirName: string, kconfigName: string, skeleton: string)
    requires AppendKconfigSpec(fs, dirName, kconfigName, skeleton).status == Ok
    ensures var kc := Join(dirName, "Kconfig");
            var o := AppendKconfigSpec(fs, dirName, kconfigName, skeleton);
            && kc in o.fs.files && o.fs.dirs == fs.dirs
            && o.fs.files == fs.files[kc := o.fs.files[kc]]
            && (IsContain(KconfigProbe(kconfigName), o.fs.files[kc]) || IsContain("\n" + skeleton + "\n", o.fs.files[kc]))
  {
    var kc := Join(dirName, "Kconfig");
    if !IsContain(KconfigProbe(kconfigName), fs.files[kc]) {
      AppendContentIdempotent(fs, kc, "\n" + skeleton + "\n");
    } else {
      assert fs.files == fs.files[kc := fs.files[kc]];
    }
  }

  /** A successful pass of the insertions runs all four steps. */
  lemma InsertStepsUnfold(fs: FsState, t: TemplateGenerator, guard: Option<string>)
    requires InsertSteps(fs, t, guard).status == Ok
    ensures var tp := Join(t.dirName, TEST_PATH);
            var o1 := AppendMakefileSpec(fs, t.dirName, t.filePrefix);
            var o2 := AppendKconfigSpec(o1.fs, t.dirName, t.kconfigName, t.skeletons.kconfigSkeleton);
            var o3 := WriteTestMakefileSpec(o2.fs, tp, TestMakefileLines(guard, t.kconfigName, t.filePrefix + "_test"));
            && o1.status == Ok && o2.status == Ok && o3.status == Ok
            && InsertSteps(fs, t, guard) == WriteContentSpec(o3.fs, Join(tp, t.filePrefix + "_test" + ".c"), t.skeletons.testSkeleton)
  {
  }

  /** Four edits of four different files, each keeping the others: the
      last state holds each file as its own edit left it. */
  lemma SettleChain(fs: FsState, s1: FsState, s2: FsState, s3: FsState, s4: FsState,
                    mk: string, kc: string, tmk: string, drv: string, v: string)
    requires mk != kc && mk != tmk && mk != drv && kc != tmk && kc != drv && tmk != drv
    requires s1 == fs.(files := fs.files[mk := v])
    requires kc in s2.files && s2.dirs == s1.dirs && s2.files == s1.files[kc := s2.files[kc]]
    requires tmk in s3.files && s3.dirs == s2.dirs && s3.files == s2.files[tmk := s3.files[tmk]]
    requires drv in s4.files && s4.dirs == s3.dirs && s4.files == s3.files[drv := s4.files[drv]]
    ensures s4.dirs == fs.dirs && fs.files.Keys <= s4.files.Keys
    ensures mk in s4.files && s4.files[mk] == v
    ensures kc in s4.files && s4.files[kc] == s2.files[kc]
    ensures tmk in s4.files && s4.files[tmk] == s3.files[tmk]
  {
  }

  /** A successful pass of the insertions leaves a settled file system: the
      parent Makefile holds the two appended fragments and nothing else of it
      changes, and no directory is added. */
  lemma InsertStepsSettle(fs: FsState, t: TemplateGenerator, guard: Option<string>)
    requires t.filePrefix + "_test" != [] && (t.filePrefix + "_test")[0] != '/'
    requires InsertSteps(fs, t, guard).status == Ok
    ensures var o := InsertSteps(fs, t, guard);
            var mk := Join(t.dirName, "Makefile");
            && Settled(o.fs, t, guard) && o.fs.dirs == fs.dirs && fs.files.Keys <= o.fs.files.Keys && mk in fs.files
            && o.fs.files[mk] == AppendIfAbsent(AppendIfAbsent(fs.files[mk], MK_CONTENT), GcovContent(t.filePrefix))
  {
    var tp := Join(t.dirName, TEST_PATH);
    var mk := Join(t.dirName, "Makefile");
    var kc := Join(t.dirName, "Kconfig");
    var tmk := Join(tp, "Makefile");
    var drv := Join(tp, t.filePrefix + "_test" + ".c");
    var lines := TestMakefileLines(guard, t.kconfigName, t.filePrefix + "_test");
    var v := AppendIfAbsent(AppendIfAbsent(fs.files[mk], MK_CONTENT), GcovContent(t.filePrefix));
    var o1 := AppendMakefileSpec(fs, t.dirName, t.filePrefix);
    var o2 := AppendKconfigSpec(o1.fs, t.dirName, t.kconfigName, t.skeletons.kconfigSkeleton);
    var o3 := WriteTestMakefileSpec(o2.fs, tp, lines);
    var o4 := WriteContentSpec(o3.fs, drv, t.skeletons.testSkeleton);
    assert o1.status == Ok && o2.status == Ok && o3.status == Ok && InsertSteps(fs, t, guard) == o4 by {
      InsertStepsUnfold(fs, t, guard);
    }
    assert mk != kc && mk != tmk && mk != drv && kc != tmk && kc != drv && tmk != drv by {
      RunPathsDistinct(t.dirName, t.filePrefix + "_test");
    }
    assert o1.fs == fs.(files := fs.files[mk := v]) && IsContain(MK_CONTENT, v) && IsContain(GcovContent(t.filePrefix), v) by {
      AppendMakefileStep(fs, t.dirName, t.filePrefix);
    }
    assert kc in o2.fs.files && o2.fs.dirs == o1.fs.dirs && o2.fs.files == o1.fs.files[kc := o2.fs.files[kc]]
               && (IsContain(KconfigProbe(t.kconfigName), o2.fs.files[kc]) || IsContain("\n" + t.skeletons.kconfigSkeleton + "\n", o2.fs.files[kc])) by {
      AppendKconfigStep(o1.fs, t.dirName, t.kconfigName, t.skeletons.kconfigSkeleton);
    }
    assert tmk in o3.fs.files && o3.fs.dirs == o2.fs.dirs && o3.fs.files == o2.fs.files[tmk := o3.fs.files[tmk]]
               && IsContain(lines.0, o3.fs.files[tmk]) && IsContain(lines.1, o3.fs.files[tmk]) by {
      assert o3 == WriteContentSpec(WriteContentSpec(o2.fs, tmk, lines.0).fs, tmk, lines.1);
      TwoWrites(o2.fs, tmk, lines.0, lines.1);
    }
    assert drv in o4.fs.files && o4.fs.dirs == o3.fs.dirs && o4.fs.files == o3.fs.files[drv := o4.fs.files[drv]]
               && IsContain(t.skeletons.testSkeleton, o4.fs.files[drv]) by {
      WriteContentIdempotent(o3.fs, drv, t.skeletons.testSkeleton);
    }
    SettleChain(fs, o1.fs, o2.fs, o3.fs, o4.fs, mk, kc, tmk, drv, v);
    assert o4.fs.files[mk] == v && o4.fs.files[kc] == o2.fs.files[kc] && o4.fs.files[tmk] == o3.fs.files[tmk];
    assert IsContain(MK_CONTENT, o4.fs.files[mk]) && IsContain(GcovContent(t.filePrefix), o4.fs.files[mk]);
    assert IsContain(lines.0, o4.fs.files[tmk]) && IsContain(lines.1, o4.fs.files[tmk]);
    assert Settled(o4.fs, t, guard);
  }

  /** The test driver's base name never starts with '/'. */
  lemma DriverNameShape(path: string, createSkeletons: (string, string) -> Skeletons)
    ensures var t := CreatePath(path, "-test", createSkeletons);
            t.filePrefix + "_test" != [] && (t.filePrefix + "_test")[0] != '/'
  {
    var t := CreatePath(path, "-test", createSkeletons);
    var name := Split(path).1;
    if t.filePrefix != [] {
      assert t.filePrefix[0] == name[0];
      assert name[0] in name;
    }
  }

  /** After a successful pass of the insertions on a parent Makefile that
      ends with a newline, the guard found in it is the same and a second
      pass changes nothing. */
  lemma InsertStepsTwice(fs: FsState, t: TemplateGenerator, guard: Option<string>)
    requires t.filePrefix + "_test" != [] && (t.filePrefix + "_test")[0] != '/'
    requires '$' !in t.filePrefix
    requires InsertSteps(fs, t, guard).status == Ok
    requires var mk := Join(t.dirName, "Makefile");
             mk in fs.files ==> fs.files[mk] == [] || fs.files[mk][|fs.files[mk]| - 1] == '\n'
    ensures var o := InsertSteps(fs, t, guard);
            var mk := Join(t.dirName, "Makefile");
            && GuardSpec(o.fs, mk, t.filePrefix + ".o") == GuardSpec(fs, mk, t.filePrefix + ".o")
            && InsertSteps(o.fs, t, guard) == Outcome(Ok, o.fs)
            && o.fs.dirs == fs.dirs && fs.files.Keys <= o.fs.files.Keys
  {
    InsertStepsSettle(fs, t, guard);
    InsertStepsKeepGuard(fs, t, guard);
    SettledInsertNothing(InsertSteps(fs, t, guard).fs, t, guard);
  }

  /** The lines the insertions add to the parent Makefile hold no guard. */
  lemma InsertStepsKeepGuard(fs: FsState, t: TemplateGenerator, guard: Option<string>)
    requires '$' !in t.filePrefix
    requires var mk := Join(t.dirName, "Makefile");
             mk in fs.files && (fs.files[mk] == [] || fs.files[mk][|fs.files[mk]| - 1] == '\n')
    ensures var mk := Join(t.dirName, "Makefile");
            var obj := t.filePrefix + ".o";
            LastGuard(SplitLines(AppendIfAbsent(AppendIfAbsent(fs.files[mk], MK_CONTENT), GcovContent(t.filePrefix))), obj)
            == LastGuard(SplitLines(fs.files[mk]), obj)
  {
    var gc := GcovContent(t.filePrefix);
    ObjectDot(t.filePrefix);
    MakefileRuleShape(MK_CONTENT);
    GcovLineShape(t.filePrefix, gc);
    GuardAfterRule(fs.files[Join(t.dirName, "Makefile")], MK_CONTENT, gc, t.filePrefix + ".o", |t.filePrefix|);
  }

  /** The object name of a prefix has its dot right after the prefix. */
  lemma ObjectDot(prefix: string)
    ensures |prefix| < |prefix + ".o"| && (prefix + ".o")[|prefix|] == '.'
  {
  }

  /** A run on a file system where the guard search succeeds, kunit_test/
      exists and the insertions change nothing succeeds and changes nothing. */
  lemma RunSpecSettled(fs: FsState, path: string, createSkeletons: (string, string) -> Skeletons, guard: Option<string>)
    requires var t := CreatePath(path, "-test", createSkeletons);
             && GuardSpec(fs, Join(t.dirName, "Makefile"), t.filePrefix + ".o") == (Ok, guard)
             && Exists(fs, Join(t.dirName, TEST_PATH))
             && InsertSteps(fs, t, guard) == Outcome(Ok, fs)
    ensures RunSpec(fs, path, createSkeletons) == Outcome(Ok, fs)
  {
  }

  /** Running the tool a second time on the same source changes nothing and
      succeeds, provided the parent Makefile ended with a newline and the
      source's base name holds no '$'. */
  lemma RunIdempotent(fs: FsState, path: string, createSkeletons: (string, string) -> Skeletons)
    requires RunSpec(fs, path, createSkeletons).status == Ok
    requires var mk := Join(CreatePath(path, "-test", createSkeletons).dirName, "Makefile");
             mk in fs.files ==> fs.files[mk] == [] || fs.files[mk][|fs.files[mk]| - 1] == '\n'
    requires '$' !in CreatePath(path, "-test", createSkeletons).filePrefix
    ensures var o := RunSpec(fs, path, createSkeletons);
            RunSpec(o.fs, path, createSkeletons) == Outcome(Ok, o.fs)
  {
    var t := CreatePath(path, "-test", createSkeletons);
    var mk := Join(t.dirName, "Makefile");
    var obj := t.filePrefix + ".o";
    var g := GuardSpec(fs, mk, obj);
    var tp := Join(t.dirName, TEST_PATH);
    var o := if Exists(fs, tp) then Outcome(Ok, fs) else MkdirSpec(fs, tp);
    var last := InsertSteps(o.fs, t, g.1);
    assert g.0 == Ok && o.status == Ok && Exists(o.fs, tp) && o.fs.files == fs.files
           && RunSpec(fs, path, createSkeletons) == last;
    assert GuardSpec(last.fs, mk, obj) == g && InsertSteps(last.fs, t, g.1) == Outcome(Ok, last.fs)
           && Exists(last.fs, tp) by {
      DriverNameShape(path, createSkeletons);
      InsertStepsTwice(o.fs, t, g.1);
    }
    RunSpecSettled(last.fs, path, createSkeletons, g.1);
  }
}
