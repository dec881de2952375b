/** Name conversion between `under_score` and `CamelCase`
    (utilities/common.py). Letters are ASCII; the two regular expressions of
    `camelcase_to_underscore` are modelled as the left-to-right,
    non-overlapping scans that `re.sub` performs. */
module Naming {
  import opened Seqs

  predicate IsUpper(c: char) { 'A' <= c <= 'Z' }
  predicate IsLower(c: char) { 'a' <= c <= 'z' }
  predicate IsDigit(c: char) { '0' <= c <= '9' }

  /** The class `[a-z0-9]`. */
  predicate IsLowerOrDigit(c: char) { IsLower(c) || IsDigit(c) }

  function ToUpper(c: char): (u: char)
    ensures IsLower(c) ==> IsUpper(u)
    ensures !IsLower(c) ==> u == c
  {
    if IsLower(c) then (c as int - 32) as char else c
  }

  function ToLower(c: char): (l: char)
    ensures !IsUpper(l)
    ensures IsUpper(c) ==> IsLower(l) && ToUpper(l) == c
    ensures !IsUpper(c) ==> l == c
  {
    if IsUpper(c) then (c as int + 32) as char else c
  }

  /** `str.lower()`. */
  function LowerStr(s: string): (r: string)
    ensures |r| == |s| && forall i :: 0 <= i < |s| ==> r[i] == ToLower(s[i])
  {
    if s == [] then [] else [ToLower(s[0])] + LowerStr(s[1..])
  }

  /** `str.capitalize()`: the first character upper case, the rest lower case. */
  function Capitalize(w: string): (r: string)
    ensures |r| == |w|
    ensures w != [] ==> IsLower(w[0]) ==> IsUpper(r[0])
    ensures forall i :: 1 <= i < |w| ==> !IsUpper(r[i])
  {
    if w == [] then [] else [ToUpper(w[0])] + LowerStr(w[1..])
  }

  // ---------------------------------------------------------------------
  // Splitting and joining on a separator

  /** `str.split(sep)`: always at least one piece, none holding `sep`. */
  function Split(s: string, sep: char): (r: seq<string>)
    ensures |r| >= 1
    ensures forall k :: 0 <= k < |r| ==> sep !in r[k]
  {
    if s == [] then [""]
    else
      var rest := Split(s[1..], sep);
      if s[0] == sep then [""] + rest else [[s[0]] + rest[0]] + rest[1..]
  }

  /** `sep.join(pieces)`. */
  function Join(ps: seq<string>, sep: char): string {
    if |ps| == 0 then "" else if |ps| == 1 then ps[0] else ps[0] + [sep] + Join(ps[1..], sep)
  }

  /** `''.join(pieces)`. */
  function Concat(ps: seq<string>): string {
    if ps == [] then "" else ps[0] + Concat(ps[1..])
  }

  lemma {:induction false} SplitSingle(p: string, sep: char)
    requires sep !in p
    ensures Split(p, sep) == [p]
  {
    if p != [] {
      SplitSingle(p[1..], sep);
      assert [p[0]] + p[1..] == p;
    }
  }

  lemma {:induction false} SplitPrefix(p: string, t: string, sep: char)
    requires sep !in p
    ensures Split(p + [sep] + t, sep) == [p] + Split(t, sep)
  {
    if p == [] {
      assert (p + [sep] + t)[1..] == t;
    } else {
      assert (p + [sep] + t)[1..] == p[1..] + [sep] + t;
      SplitPrefix(p[1..], t, sep);
      assert [p[0]] + p[1..] == p;
    }
  }

  /** Splitting what was joined gives back the pieces, provided none of them
      holds the separator. */
  lemma {:induction false} JoinSplit(ps: seq<string>, sep: char)
    requires |ps| >= 1 && forall k :: 0 <= k < |ps| ==> sep !in ps[k]
    ensures Split(Join(ps, sep), sep) == ps
  {
    if |ps| == 1 {
      SplitSingle(ps[0], sep);
    } else {
      JoinSplit(ps[1..], sep);
      SplitPrefix(ps[0], Join(ps[1..], sep), sep);
      assert [ps[0]] + ps[1..] == ps;
    }
  }

  /** Joining what was split gives back the string. */
  lemma {:induction false} SplitJoin(s: string, sep: char)
    ensures Join(Split(s, sep), sep) == s
  {
    if s != [] {
      SplitJoin(s[1..], sep);
      var rest := Split(s[1..], sep);
      if s[0] == sep {
        assert ([""] + rest)[1..] == rest;
      } else {
        var r := [[s[0]] + rest[0]] + rest[1..];
        assert r[1..] == rest[1..];
        if |rest| == 1 {
        } else {
          assert rest == [rest[0]] + rest[1..];
          assert Join(rest, sep) == rest[0] + [sep] + Join(rest[1..], sep);
        }
      }
    }
  }

  // ---------------------------------------------------------------------
  // underscore_to_camelcase

  /** One piece: capitalised, or `_` for an empty piece. */
  function CamelPiece(x: string): (r: string)
    ensures |r| >= 1
  {
    if x == [] then "_" else Capitalize(x)
  }

  function CamelPieces(ps: seq<string>): (r: string)
    ensures |r| >= |ps|
  {
    if ps == [] then "" else CamelPiece(ps[0]) + CamelPieces(ps[1..])
  }

  /** `underscore_to_camelcase(name)`. */
  function UnderscoreToCamel(name: string): (r: string)
    ensures |r| >= 1
    ensures '_' !in name ==> r == CamelPiece(name)
  {
    if '_' in name then CamelPieces(Split(name, '_'))
    else
      SplitSingle(name, '_');
      assert [name][1..] == [];
      assert CamelPieces([name]) == CamelPiece(name) + "";
      assert CamelPiece(name) + "" == CamelPiece(name);
      CamelPieces(Split(name, '_'))
  }

  function CapitalizeAll(ps: seq<string>): (r: seq<string>)
    ensures |r| == |ps| && forall k :: 0 <= k < |ps| ==> r[k] == Capitalize(ps[k])
  {
    if ps == [] then [] else [Capitalize(ps[0])] + CapitalizeAll(ps[1..])
  }

  lemma {:induction false} CamelPiecesNonEmpty(ps: seq<string>)
    requires forall k :: 0 <= k < |ps| ==> ps[k] != []
    ensures CamelPieces(ps) == Concat(CapitalizeAll(ps))
  {
    if ps != [] {
      CamelPiecesNonEmpty(ps[1..]);
      assert CapitalizeAll(ps)[1..] == CapitalizeAll(ps[1..]);
    }
  }

  /** Names joined with `_` from non-empty pieces become the capitalised
      pieces run together. */
  lemma UnderscoreToCamelPieces(ps: seq<string>)
    requires |ps| >= 1 && forall k :: 0 <= k < |ps| ==> ps[k] != [] && '_' !in ps[k]
    ensures UnderscoreToCamel(Join(ps, '_')) == Concat(CapitalizeAll(ps))
  {
    JoinSplit(ps, '_');
    CamelPiecesNonEmpty(ps);
  }

  lemma {:induction false} LowerStrNoUpper(s: string)
    requires forall i :: 0 <= i < |s| ==> !IsUpper(s[i])
    ensures LowerStr(s) == s
  {
  }

  /** The class name of a boundary module: `boundary_<kind>` becomes
      `Boundary` followed by the capitalised kind, so `boundary_period` is
      `BoundaryPeriod`. */
  lemma BoundaryClassName(kind: string)
    requires kind != [] && '_' !in kind
    ensures UnderscoreToCamel("boundary_" + kind) == "Boundary" + Capitalize(kind)
  {
    var ps := ["boundary", kind];
    assert Join(ps[1..], '_') == kind;
    assert Join(ps, '_') == "boundary_" + kind;
    UnderscoreToCamelPieces(ps);
    var cs := CapitalizeAll(ps);
    assert cs[1..] == [Capitalize(kind)];
    assert Concat(cs[1..]) == Capitalize(kind);
    CapitalizeBoundary();
  }

  lemma CapitalizeBoundary()
    ensures Capitalize("boundary") == "Boundary"
  {
  }

  // ---------------------------------------------------------------------
  // camelcase_to_underscore

  /** The length of the run of lower-case letters `s` starts with. */
  function LowerRun(s: string): (n: nat)
    ensures n <= |s| && forall i :: 0 <= i < n ==> IsLower(s[i])
    ensures n < |s| ==> !IsLower(s[n])
  {
    if s != [] && IsLower(s[0]) then 1 + LowerRun(s[1..]) else 0
  }

  /** `re.sub('(.)([A-Z][a-z]+)', r'\1_\2', s)`: `.` is any character but a
      newline, and `[a-z]+` takes the whole run. */
  function SplitCapitalRuns(s: string): (r: string)
    ensures s != [] ==> r != [] && r[0] == s[0]
  {
    if |s| >= 3 && s[0] != '\n' && IsUpper(s[1]) && IsLower(s[2]) then
      var n := LowerRun(s[2..]);
      [s[0], '_'] + s[1..2 + n] + SplitCapitalRuns(s[2 + n..])
    else if s == [] then []
    else [s[0]] + SplitCapitalRuns(s[1..])
  }

  /** `re.sub('([a-z0-9])([A-Z])', r'\1_\2', s)`. */
  function SplitLowerUpper(s: string): (r: string)
    ensures s != [] ==> r != [] && r[0] == s[0]
  {
    if |s| >= 2 && IsLowerOrDigit(s[0]) && IsUpper(s[1]) then [s[0], '_', s[1]] + SplitLowerUpper(s[2..])
    else if s == [] then []
    else [s[0]] + SplitLowerUpper(s[1..])
  }

  /** `camelcase_to_underscore(name)`: both substitutions, then lower case;
      the result holds no upper-case letter. */
  function CamelToUnderscore(name: string): (r: string)
    ensures forall i :: 0 <= i < |r| ==> !IsUpper(r[i])
  {
    LowerStr(SplitLowerUpper(SplitCapitalRuns(name)))
  }

  /** The string without its underscores. */
  function Strip(s: string): string {
    if s == [] then [] else (if s[0] == '_' then [] else [s[0]]) + Strip(s[1..])
  }

  lemma {:induction false} StripAppend(a: string, b: string)
    ensures Strip(a + b) == Strip(a) + Strip(b)
  {
    if a != [] {
      assert (a + b)[1..] == a[1..] + b;
      StripAppend(a[1..], b);
    } else {
      assert a + b == b;
    }
  }

  lemma {:induction false} SplitCapitalRunsInsertsOnly(s: string)
    ensures Strip(SplitCapitalRuns(s)) == Strip(s)
    decreases |s|
  {
    if |s| >= 3 && s[0] != '\n' && IsUpper(s[1]) && IsLower(s[2]) {
      var n := LowerRun(s[2..]);
      SplitCapitalRunsInsertsOnly(s[2 + n..]);
      StripAppend([s[0], '_'] + s[1..2 + n], SplitCapitalRuns(s[2 + n..]));
      StripAppend([s[0], '_'], s[1..2 + n]);
      StripAppend([s[0]], ['_']);
      assert s == [s[0]] + s[1..2 + n] + s[2 + n..];
      StripAppend([s[0]] + s[1..2 + n], s[2 + n..]);
      StripAppend([s[0]], s[1..2 + n]);
    } else if s != [] {
      SplitCapitalRunsInsertsOnly(s[1..]);
      StripAppend([s[0]], SplitCapitalRuns(s[1..]));
      StripAppend([s[0]], s[1..]);
      assert s == [s[0]] + s[1..];
    }
  }

  lemma {:induction false} SplitLowerUpperInsertsOnly(s: string)
    ensures Strip(SplitLowerUpper(s)) == Strip(s)
    decreases |s|
  {
    if |s| >= 2 && IsLowerOrDigit(s[0]) && IsUpper(s[1]) {
      SplitLowerUpperInsertsOnly(s[2..]);
      StripAppend([s[0], '_', s[1]], SplitLowerUpper(s[2..]));
      assert s == [s[0], s[1]] + s[2..];
      StripAppend([s[0], s[1]], s[2..]);
      assert Strip([s[0], '_', s[1]]) == Strip([s[0], s[1]]);
    } else if s != [] {
      SplitLowerUpperInsertsOnly(s[1..]);
      StripAppend([s[0]], SplitLowerUpper(s[1..]));
      StripAppend([s[0]], s[1..]);
      assert s == [s[0]] + s[1..];
    }
  }

  lemma {:induction false} StripLower(s: string)
    ensures Strip(LowerStr(s)) == LowerStr(Strip(s))
  {
    if s != [] {
      StripLower(s[1..]);
      assert LowerStr(s)[1..] == LowerStr(s[1..]);
      var head := if s[0] == '_' then [] else [s[0]];
      assert LowerStr(head + Strip(s[1..])) == LowerStr(head) + LowerStr(Strip(s[1..]));
    }
  }

  /** `camelcase_to_underscore` only inserts underscores: without them the
      result is the name in lower case, letter for letter. */
  lemma CamelToUnderscoreLetters(name: string)
    ensures Strip(CamelToUnderscore(name)) == LowerStr(Strip(name))
  {
    SplitCapitalRunsInsertsOnly(name);
    SplitLowerUpperInsertsOnly(SplitCapitalRuns(name));
    StripLower(SplitLowerUpper(SplitCapitalRuns(name)));
  }

  /** No lower-case letter or digit is directly followed by a capital. */
  predicate Separated(t: string) {
    forall i :: 0 <= i < |t| - 1 ==> !(IsLowerOrDigit(t[i]) && IsUpper(t[i + 1]))
  }

  lemma SeparatedCons(c: char, t: string)
    requires Separated(t) && (t == [] || !(IsLowerOrDigit(c) && IsUpper(t[0])))
    ensures Separated([c] + t)
  {
    var u := [c] + t;
    forall i | 1 <= i < |u| - 1 ensures !(IsLowerOrDigit(u[i]) && IsUpper(u[i + 1])) {
      var j := i - 1;
      assert u[i] == t[j] && u[i + 1] == t[j + 1];
    }
  }

  /** After the second substitution no lower-case letter or digit is directly
      followed by a capital: each such boundary got an underscore. */
  lemma {:induction false} SplitLowerUpperSeparates(s: string)
    ensures Separated(SplitLowerUpper(s))
    decreases |s|
  {
    if |s| >= 2 && IsLowerOrDigit(s[0]) && IsUpper(s[1]) {
      SplitLowerUpperSeparates(s[2..]);
      var rest := SplitLowerUpper(s[2..]);
      SeparatedCons(s[1], rest);
      SeparatedCons('_', [s[1]] + rest);
      SeparatedCons(s[0], ['_', s[1]] + rest);
      assert [s[0]] + (['_'] + ([s[1]] + rest)) == [s[0], '_', s[1]] + rest;
    } else if s != [] {
      SplitLowerUpperSeparates(s[1..]);
      SeparatedCons(s[0], SplitLowerUpper(s[1..]));
    }
  }

  // ---------------------------------------------------------------------
  // Round trip for names made of capitalised words

  /** An upper-case letter followed by one or more lower-case letters. */
  predicate Capitalised(w: string) {
    |w| >= 2 && IsUpper(w[0]) && forall i :: 1 <= i < |w| ==> IsLower(w[i])
  }

  function LowerWords(ws: seq<string>): (r: seq<string>)
    ensures |r| == |ws| && forall k :: 0 <= k < |ws| ==> r[k] == LowerStr(ws[k])
  {
    if ws == [] then [] else [LowerStr(ws[0])] + LowerWords(ws[1..])
  }

  /** What the first substitution makes of capitalised words: an underscore
      before every second word. */
  function Alternate(ws: seq<string>): string {
    if |ws| == 0 then "" else if |ws| == 1 then ws[0] else ws[0] + "_" + ws[1] + Alternate(ws[2..])
  }

  lemma LowerRunAll(y: string, r: string)
    requires forall i :: 0 <= i < |y| ==> IsLower(y[i])
    requires r == [] || !IsLower(r[0])
    ensures LowerRun(y + r) == |y|
  {
    if y != [] {
      assert (y + r)[1..] == y[1..] + r;
      LowerRunAll(y[1..], r);
    } else {
      assert y + r == r;
    }
  }

  lemma {:induction false} CapitalRunsNoUpper(s: string)
    requires forall i :: 1 <= i < |s| ==> !IsUpper(s[i])
    ensures SplitCapitalRuns(s) == s
  {
    if s != [] {
      CapitalRunsNoUpper(s[1..]);
      assert [s[0]] + s[1..] == s;
    }
  }

  /** The first substitution fires on a character followed by a capitalised
      word, and takes the whole word. */
  lemma SplitCapitalRunsMatch(c: char, b: string, r: string)
    requires c != '\n' && Capitalised(b) && (r == [] || !IsLower(r[0]))
    ensures SplitCapitalRuns([c] + b + r) == [c, '_'] + b + SplitCapitalRuns(r)
  {
    var s := [c] + b + r;
    assert s[1] == b[0] && s[2] == b[1];
    assert s[2..] == b[1..] + r;
    LowerRunAll(b[1..], r);
    assert s[1..2 + |b| - 1] == b;
    assert s[2 + |b| - 1..] == r;
  }

  /** A lower-case run followed by no capital passes through unchanged. */
  lemma {:induction false} CapitalRunsPassLower(x: string, q: string)
    requires forall i :: 0 <= i < |x| ==> IsLower(x[i])
    requires q == [] || !IsUpper(q[0])
    ensures SplitCapitalRuns(x + q) == x + SplitCapitalRuns(q)
  {
    if x != [] {
      var y := x[1..];
      CapitalRunsPassLower(y, q);
      var t := y + q;
      assert [x[0]] + y == x;
      ConcatAssoc([x[0]], y, q);
      if y != [] {
        assert t[0] == y[0];
      } else {
        assert t == q;
      }
      SplitCapitalRunsCons(x[0], t);
      ConcatAssoc([x[0]], y, SplitCapitalRuns(q));
    } else {
      assert x + q == q;
    }
  }

  /** So the first substitution fires at the last letter of a lower-case
      run followed by a capitalised word. */
  lemma CapitalRunsAfterLower(init: string, z: char, b: string, r: string)
    requires IsLower(z) && forall i :: 0 <= i < |init| ==> IsLower(init[i])
    requires Capitalised(b) && (r == [] || !IsLower(r[0]))
    ensures SplitCapitalRuns(init + [z] + b + r) == init + [z] + "_" + b + SplitCapitalRuns(r)
  {
    CapitalRunsPassLower(init, [z] + b + r);
    SplitCapitalRunsMatch(z, b, r);
    Regroup(init, z, b, r);
    RegroupUnderscore(init, z, b, SplitCapitalRuns(r));
  }

  lemma Regroup(a: string, c: char, b: string, r: string)
    ensures a + [c] + b + r == a + ([c] + b + r)
  {
  }

  lemma RegroupUnderscore(a: string, c: char, b: string, t: string)
    ensures a + ([c, '_'] + b + t) == a + [c] + "_" + b + t
  {
  }

  lemma SplitCapitalRunsCons(c: char, t: string)
    requires t == [] || !IsUpper(t[0])
    ensures SplitCapitalRuns([c] + t) == [c] + SplitCapitalRuns(t)
  {
    assert ([c] + t)[1..] == t;
  }

  lemma ConcatHead(ws: seq<string>)
    requires |ws| >= 1 && ws[0] != []
    ensures Concat(ws) != [] && Concat(ws)[0] == ws[0][0]
  {
  }

  lemma ConcatTwo(ws: seq<string>)
    requires |ws| >= 2
    ensures Concat(ws) == ws[0] + (ws[1] + Concat(ws[2..]))
  {
    assert ws[1..][1..] == ws[2..];
  }

  /** A word split into its head, its middle and its last letter. */
  lemma SplitWord(a: string, b: string, r: string)
    requires |a| >= 2
    ensures a + (b + r) == [a[0]] + (a[1..|a| - 1] + [a[|a| - 1]] + b + r)
  {
    assert a == [a[0]] + a[1..|a| - 1] + [a[|a| - 1]];
  }

  lemma JoinWord(a: string, b: string, t: string)
    requires |a| >= 2
    ensures [a[0]] + (a[1..|a| - 1] + [a[|a| - 1]] + "_" + b + t) == a + "_" + b + t
  {
    assert a == [a[0]] + a[1..|a| - 1] + [a[|a| - 1]];
  }

  lemma {:induction false} CapitalRunsWords(ws: seq<string>)
    requires forall k :: 0 <= k < |ws| ==> Capitalised(ws[k])
    ensures SplitCapitalRuns(Concat(ws)) == Alternate(ws)
  {
    if |ws| == 1 {
      assert ws[1..] == [];
      assert Concat(ws) == ws[0] + "";
      assert ws[0] + "" == ws[0];
      CapitalRunsNoUpper(ws[0]);
    } else if |ws| >= 2 {
      var a, b, rest := ws[0], ws[1], ws[2..];
      CapitalRunsWords(rest);
      var r := Concat(rest);
      assert r == [] || !IsLower(r[0]) by {
        if rest != [] {
          ConcatHead(rest);
        }
      }
      ConcatTwo(ws);
      var init, z := a[1..|a| - 1], a[|a| - 1];
      SplitWord(a, b, r);
      CapitalRunsAfterLower(init, z, b, r);
      assert init + [z] + b + r == [] || !IsUpper((init + [z] + b + r)[0]);
      SplitCapitalRunsCons(a[0], init + [z] + b + r);
      JoinWord(a, b, Alternate(rest));
    }
  }

  lemma {:induction false} LowerUpperIdentity(s: string)
    requires Separated(s)
    ensures SplitLowerUpper(s) == s
  {
    if s != [] {
      assert Separated(s[1..]) by {
        forall i | 0 <= i < |s[1..]| - 1 ensures !(IsLowerOrDigit(s[1..][i]) && IsUpper(s[1..][i + 1])) {
          assert s[1..][i] == s[i + 1] && s[1..][i + 1] == s[i + 2];
        }
      }
      LowerUpperIdentity(s[1..]);
      assert [s[0]] + s[1..] == s;
    }
  }

  /** Two separated strings joined where no lower-case letter or digit meets
      a capital stay separated. */
  lemma SeparatedAppend(p: string, q: string)
    requires Separated(p) && Separated(q)
    requires p == [] || q == [] || !(IsLowerOrDigit(p[|p| - 1]) && IsUpper(q[0]))
    ensures Separated(p + q)
  {
    var u := p + q;
    forall i | 0 <= i < |u| - 1 ensures !(IsLowerOrDigit(u[i]) && IsUpper(u[i + 1])) {
      if i < |p| - 1 {
        assert u[i] == p[i] && u[i + 1] == p[i + 1];
      } else if i >= |p| {
        var j := i - |p|;
        assert u[i] == q[j] && u[i + 1] == q[j + 1];
      }
    }
  }

  /** A capital followed by lower-case letters, or a prefix of one, is separated. */
  lemma CapitalisedSeparated(w: string)
    requires |w| >= 1 && forall i :: 1 <= i < |w| ==> IsLower(w[i])
    ensures Separated(w)
  {
  }

  lemma {:induction false} LowerUpperAppend(p: string, q: string)
    requires p == [] || q == [] || !(IsLowerOrDigit(p[|p| - 1]) && IsUpper(q[0]))
    ensures SplitLowerUpper(p + q) == SplitLowerUpper(p) + SplitLowerUpper(q)
  {
    if p == [] {
      assert p + q == q;
    } else if |p| >= 2 && IsLowerOrDigit(p[0]) && IsUpper(p[1]) {
      assert (p + q)[0] == p[0] && (p + q)[1] == p[1];
      assert (p + q)[2..] == p[2..] + q;
      LowerUpperAppend(p[2..], q);
      assert SplitLowerUpper(p + q) == [p[0], '_', p[1]] + SplitLowerUpper(p[2..] + q);
      assert SplitLowerUpper(p) == [p[0], '_', p[1]] + SplitLowerUpper(p[2..]);
      ConcatAssoc([p[0], '_', p[1]], SplitLowerUpper(p[2..]), SplitLowerUpper(q));
    } else {
      assert (p + q)[0] == p[0];
      assert (p + q)[1..] == p[1..] + q;
      LowerUpperAppend(p[1..], q);
      if |p| >= 2 {
        assert (p + q)[1] == p[1];
      } else if q != [] {
        assert (p + q)[1] == q[0];
      }
      assert SplitLowerUpper(p + q) == [p[0]] + SplitLowerUpper(p[1..] + q);
      assert SplitLowerUpper(p) == [p[0]] + SplitLowerUpper(p[1..]);
      ConcatAssoc([p[0]], SplitLowerUpper(p[1..]), SplitLowerUpper(q));
    }
  }

  lemma SplitLowerUpperBoundary(z: char, t: string)
    requires IsLowerOrDigit(z) && t != [] && IsUpper(t[0])
    ensures SplitLowerUpper([z] + t) == [z, '_'] + SplitLowerUpper(t)
  {
    assert ([z] + t)[2..] == t[1..];
    assert ([z] + t)[1] == t[0];
    assert SplitLowerUpper(t) == [t[0]] + SplitLowerUpper(t[1..]);
    assert [z, '_', t[0]] + SplitLowerUpper(t[1..]) == [z, '_'] + ([t[0]] + SplitLowerUpper(t[1..]));
  }

  lemma AlternateHead(ws: seq<string>)
    requires |ws| >= 1 && ws[0] != []
    ensures Alternate(ws) != [] && Alternate(ws)[0] == ws[0][0]
  {
  }

  lemma JoinTwo(ws: seq<string>, sep: char)
    requires |ws| >= 2
    ensures Join(ws, sep) == ws[0] + [sep] + ws[1] + (if |ws| == 2 then [] else [sep] + Join(ws[2..], sep))
  {
    assert ws[1..][1..] == ws[2..];
    if |ws| == 2 {
      assert Join(ws[1..], sep) == ws[1];
    }
  }

  lemma AlternateTwo(ws: seq<string>)
    requires |ws| >= 2
    ensures Alternate(ws) == ws[0] + "_" + ws[1] + Alternate(ws[2..])
  {
  }

  lemma RegroupPair(a: string, b: string, t: string)
    requires |b| >= 1
    ensures a + "_" + b + t == (a + "_" + b[..|b| - 1]) + ([b[|b| - 1]] + t)
  {
    assert b == b[..|b| - 1] + [b[|b| - 1]];
  }

  lemma RegroupPairBack(a: string, b: string, j: string)
    requires |b| >= 1
    ensures (a + "_" + b[..|b| - 1]) + ([b[|b| - 1], '_'] + j) == a + ['_'] + b + (['_'] + j)
  {
    assert b == b[..|b| - 1] + [b[|b| - 1]];
  }

  lemma {:induction false} LowerUpperWords(ws: seq<string>)
    requires forall k :: 0 <= k < |ws| ==> Capitalised(ws[k])
    ensures SplitLowerUpper(Alternate(ws)) == Join(ws, '_')
  {
    if |ws| == 1 {
      CapitalisedSeparated(ws[0]);
      LowerUpperIdentity(ws[0]);
    } else if |ws| >= 2 {
      var a, b, rest := ws[0], ws[1], ws[2..];
      AlternateTwo(ws);
      JoinTwo(ws, '_');
      CapitalisedSeparated(a);
      CapitalisedSeparated(b);
      SeparatedAppend(a, "_");
      var b' := b[..|b| - 1];
      CapitalisedSeparated(b');
      SeparatedAppend(a + "_", b');
      if rest == [] {
        SeparatedAppend(a + "_", b);
        assert Alternate(ws) == a + "_" + b + "";
        assert a + "_" + b + "" == a + "_" + b;
        LowerUpperIdentity(a + "_" + b);
        assert Join(ws, '_') == a + "_" + b + [];
      } else {
        LowerUpperWords(rest);
        var tail := Alternate(rest);
        AlternateHead(rest);
        var p, z := a + "_" + b', b[|b| - 1];
        RegroupPair(a, b, tail);
        LowerUpperIdentity(p);
        LowerUpperAppend(p, [z] + tail);
        SplitLowerUpperBoundary(z, tail);
        RegroupPairBack(a, b, Join(rest, '_'));
      }
    }
  }

  lemma {:induction false} LowerStrAppend(a: string, b: string)
    ensures LowerStr(a + b) == LowerStr(a) + LowerStr(b)
  {
  }

  lemma {:induction false} LowerJoin(ws: seq<string>)
    ensures LowerStr(Join(ws, '_')) == Join(LowerWords(ws), '_')
  {
    if |ws| >= 2 {
      LowerJoin(ws[1..]);
      LowerStrAppend(ws[0] + "_", Join(ws[1..], '_'));
      LowerStrAppend(ws[0], "_");
      assert LowerWords(ws)[1..] == LowerWords(ws[1..]);
    }
  }

  lemma {:induction false} CapitalizeLowered(ws: seq<string>)
    requires forall k :: 0 <= k < |ws| ==> Capitalised(ws[k])
    ensures CapitalizeAll(LowerWords(ws)) == ws
  {
    forall k | 0 <= k < |ws| ensures Capitalize(LowerStr(ws[k])) == ws[k] {
      CapitalizeLoweredWord(ws[k]);
    }
  }

  lemma CapitalizeLoweredWord(w: string)
    requires Capitalised(w)
    ensures Capitalize(LowerStr(w)) == w
  {
    var c := Capitalize(LowerStr(w));
    assert c[0] == w[0];
    forall i | 1 <= i < |w| ensures c[i] == w[i] {
      assert c[i] == LowerStr(LowerStr(w)[1..])[i - 1];
    }
  }

  lemma LoweredPieces(ws: seq<string>)
    requires forall k :: 0 <= k < |ws| ==> Capitalised(ws[k])
    ensures forall k :: 0 <= k < |ws| ==> LowerWords(ws)[k] != [] && '_' !in LowerWords(ws)[k]
  {
    var lw := LowerWords(ws);
    forall k | 0 <= k < |lw| ensures lw[k] != [] && '_' !in lw[k] {
      var w := LowerStr(ws[k]);
      assert w == lw[k];
      forall i | 0 <= i < |w| ensures w[i] != '_' {
        assert w[i] == ToLower(ws[k][i]);
      }
    }
  }

  /** A name made of capitalised words becomes the lower-case words joined
      by `_`, and converting back gives the name again. */
  lemma CamelRoundTrip(ws: seq<string>)
    requires |ws| >= 1 && forall k :: 0 <= k < |ws| ==> Capitalised(ws[k])
    ensures CamelToUnderscore(Concat(ws)) == Join(LowerWords(ws), '_')
    ensures UnderscoreToCamel(CamelToUnderscore(Concat(ws))) == Concat(ws)
  {
    CapitalRunsWords(ws);
    LowerUpperWords(ws);
    LowerJoin(ws);
    var lw := LowerWords(ws);
    LoweredPieces(ws);
    UnderscoreToCamelPieces(lw);
    CapitalizeLowered(ws);
  }
}
