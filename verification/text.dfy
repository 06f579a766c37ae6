/**
 * The parts of Go's `strings` and `unicode` packages that the renamer relies on:
 * TrimSpace, TrimRight with a one-character cutset, Fields, Split and Join on a
 * one-character separator, ToLower on the answers it compares, and the ordering
 * of the `<` operator on strings. A Go string is modelled as its sequence of
 * runes (`seq<char>`).
 */
module Text {

  /** Go's `unicode.IsSpace`: the characters with Unicode's White_Space property. */
  predicate IsSpace(c: char)
  {
    if c <= '\U{00A0}' then
      c == ' ' || ('\t' <= c <= '\r') || c == '\U{0085}' || c == '\U{00A0}'
    else
      || c == '\U{1680}' || ('\U{2000}' <= c <= '\U{200A}')
      || c == '\U{2028}' || c == '\U{2029}' || c == '\U{202F}' || c == '\U{205F}' || c == '\U{3000}'
  }

  predicate NoSpace(s: string)
  {
    forall i :: 0 <= i < |s| ==> !IsSpace(s[i])
  }

  predicate AllSpace(s: string)
  {
    forall i :: 0 <= i < |s| ==> IsSpace(s[i])
  }

  // ---------------------------------------------------------------------------
  // Trimming

  /** `s` without its leading white space: a suffix of `s`. */
  function TrimLeftSpace(s: string): (r: string)
    ensures |r| <= |s| && r == s[|s| - |r|..]
    ensures r == [] || !IsSpace(r[0])
    ensures forall i :: 0 <= i < |s| - |r| ==> IsSpace(s[i])
    ensures |s| > 0 && IsSpace(s[0]) ==> |r| < |s|
    decreases |s|
  {
    if |s| > 0 && IsSpace(s[0]) then TrimLeftSpace(s[1..]) else s
  }

  /** `s` without its trailing white space: a prefix of `s`. */
  function TrimRightSpace(s: string): (r: string)
    ensures |r| <= |s| && r == s[..|r|]
    ensures r == [] || !IsSpace(r[|r| - 1])
    ensures forall i :: |r| <= i < |s| ==> IsSpace(s[i])
    decreases |s|
  {
    if |s| > 0 && IsSpace(s[|s| - 1]) then TrimRightSpace(s[..|s| - 1]) else s
  }

  /** Go's `strings.TrimSpace`. */
  function TrimSpace(s: string): (r: string)
  {
    TrimRightSpace(TrimLeftSpace(s))
  }

  /** TrimSpace leaves no white space at either end. */
  lemma TrimSpaceEnds(s: string)
    ensures var r := TrimSpace(s); r == [] || (!IsSpace(r[0]) && !IsSpace(r[|r| - 1]))
  {
    var u := TrimLeftSpace(s);
    var r := TrimRightSpace(u);
    if r != [] {
      assert r[0] == u[0];
    }
  }

  /** TrimSpace gives the empty string exactly when `s` is all white space. */
  lemma TrimSpaceEmpty(s: string)
    ensures TrimSpace(s) == [] <==> AllSpace(s)
  {
    var u := TrimLeftSpace(s);
    var r := TrimRightSpace(u);
    var d := |s| - |u|;
    if r == [] {
      assert |u| == 0;
    } else {
      assert !IsSpace(s[d]);
    }
  }

  /** TrimSpace keeps every character of `s` that is not white space, and adds none. */
  lemma TrimSpaceKeeps(s: string, c: char)
    requires !IsSpace(c)
    ensures c in TrimSpace(s) <==> c in s
  {
    var u := TrimLeftSpace(s);
    var r := TrimRightSpace(u);
    TrimLeftKeeps(s, c);
    if c in u {
      var i :| 0 <= i < |u| && u[i] == c;
      assert i < |r|;
      assert r[i] == c;
    }
  }

  /** Go's `strings.TrimRight(s, cutset)` for a one-character cutset: drops every trailing `c`. */
  function TrimRightChar(s: string, c: char): (r: string)
    ensures |r| <= |s| && r == s[..|r|]
    ensures r == [] || r[|r| - 1] != c
    ensures forall i :: |r| <= i < |s| ==> s[i] == c
    decreases |s|
  {
    if |s| > 0 && s[|s| - 1] == c then TrimRightChar(s[..|s| - 1], c) else s
  }

  // ---------------------------------------------------------------------------
  // Fields

  /** The longest prefix of `s` without white space. */
  function Word(s: string): (w: string)
    ensures |w| <= |s| && w == s[..|w|] && NoSpace(w)
    ensures |w| < |s| ==> IsSpace(s[|w|])
    decreases |s|
  {
    if |s| == 0 || IsSpace(s[0]) then [] else [s[0]] + Word(s[1..])
  }

  /** Go's `strings.Fields`: the maximal runs of non-space characters of `s`, in order. */
  function Fields(s: string): seq<string>
    decreases |s|
  {
    var t := TrimLeftSpace(s);
    if t == [] then []
    else
      var w := Word(t);
      assert w != [] by { assert !IsSpace(t[0]); }
      [w] + Fields(t[|w|..])
  }

  // ---------------------------------------------------------------------------
  // Join and Split on a one-character separator

  /** Go's `strings.Join(parts, string(sep))`. */
  function Join(parts: seq<string>, sep: char): string
  {
    if |parts| == 0 then ""
    else if |parts| == 1 then parts[0]
    else parts[0] + [sep] + Join(parts[1..], sep)
  }

  /** Go's `strings.Split(s, string(sep))`: never empty; `Split("", sep) == [""]`. */
  function Split(s: string, sep: char): (parts: seq<string>)
    ensures |parts| >= 1
    ensures forall i :: 0 <= i < |parts| ==> sep !in parts[i]
    decreases |s|
  {
    if |s| == 0 then [""]
    else
      var rest := Split(s[1..], sep);
      if s[0] == sep then [""] + rest
      else [[s[0]] + rest[0]] + rest[1..]
  }

  /** Joining the pieces of a split puts the separators back: nothing is lost by Split. */
  lemma {:induction false} JoinSplit(s: string, sep: char)
    ensures Join(Split(s, sep), sep) == s
    decreases |s|
  {
    if |s| > 0 {
      var rest := Split(s[1..], sep);
      JoinSplit(s[1..], sep);
      if s[0] == sep {
        assert Join([""] + rest, sep) == "" + [sep] + Join(rest, sep);
        assert s == [s[0]] + s[1..];
      } else if |rest| == 1 {
        assert s == [s[0]] + s[1..];
      } else {
        var parts := [[s[0]] + rest[0]] + rest[1..];
        assert parts[1..] == rest[1..];
        assert Join(rest, sep) == rest[0] + [sep] + Join(rest[1..], sep);
        assert Join(parts, sep) == ([s[0]] + rest[0]) + [sep] + Join(rest[1..], sep);
        assert s == [s[0]] + s[1..];
      }
    }
  }

  /** The first piece of a split is the prefix of the string up to its first separator, or all of it. */
  lemma SplitFirstPrefix(s: string, sep: char)
    ensures var p := Split(s, sep)[0]; |p| <= |s| && p == s[..|p|]
    ensures var p := Split(s, sep)[0]; |p| == |s| || s[|p|] == sep
  {
    var parts := Split(s, sep);
    JoinSplit(s, sep);
    if |parts| > 1 {
      assert s == parts[0] + ([sep] + Join(parts[1..], sep));
    }
  }

  /** A string without the separator splits into itself alone. */
  lemma {:induction false} SplitWithoutSep(p: string, sep: char)
    requires sep !in p
    ensures Split(p, sep) == [p]
    decreases |p|
  {
    if |p| > 0 {
      SplitWithoutSep(p[1..], sep);
      assert [p[0]] + p[1..] == p;
    }
  }

  /** Splitting `p + sep + rest` cuts `p` off at the first separator. */
  lemma {:induction false} SplitAtFirstSep(p: string, rest: string, sep: char)
    requires sep !in p
    ensures Split(p + [sep] + rest, sep) == [p] + Split(rest, sep)
    decreases |p|
  {
    var s := p + [sep] + rest;
    if |p| == 0 {
      assert s[1..] == rest;
    } else {
      assert s[1..] == p[1..] + [sep] + rest;
      SplitAtFirstSep(p[1..], rest, sep);
      assert [p[0]] + p[1..] == p;
    }
  }

  /**
   * The round trip: if no part contains the separator, splitting the joined
   * string gives the parts back, the same number of them and in order.
   */
  lemma {:induction false} SplitJoin(parts: seq<string>, sep: char)
    requires |parts| >= 1
    requires forall i :: 0 <= i < |parts| ==> sep !in parts[i]
    ensures Split(Join(parts, sep), sep) == parts
    decreases |parts|
  {
    if |parts| == 1 {
      SplitWithoutSep(parts[0], sep);
    } else {
      SplitJoin(parts[1..], sep);
      SplitAtFirstSep(parts[0], Join(parts[1..], sep), sep);
      assert [parts[0]] + parts[1..] == parts;
    }
  }

  // ---------------------------------------------------------------------------
  // Collapsing white-space runs

  /**
   * The reference meaning of "replace every run of white space by one `sep`":
   * each maximal run of white-space characters of `s` becomes a single `sep`
   * and every other character is kept in place.
   */
  function CollapseRuns(s: string, sep: char): string
    decreases |s|
  {
    if s == [] then []
    else if IsSpace(s[0]) then [sep] + CollapseRuns(TrimLeftSpace(s), sep)
    else [s[0]] + CollapseRuns(s[1..], sep)
  }

  /** A string starting with a non-space character keeps it in front of its collapse. */
  lemma CollapseHead(s: string, sep: char)
    requires s != [] && !IsSpace(s[0])
    ensures CollapseRuns(s, sep) == [s[0]] + CollapseRuns(s[1..], sep)
  {
  }

  /** A string starting with a white-space run: the run becomes one separator. */
  lemma CollapseRun(s: string, sep: char)
    requires s != [] && IsSpace(s[0])
    ensures CollapseRuns(s, sep) == [sep] + CollapseRuns(TrimLeftSpace(s), sep)
  {
  }

  lemma {:induction false} CollapseWithoutSpace(w: string, x: string, sep: char)
    requires NoSpace(w)
    ensures CollapseRuns(w + x, sep) == w + CollapseRuns(x, sep)
    decreases |w|
  {
    if w == [] {
      assert w + x == x;
    } else {
      assert (w + x)[0] == w[0] && !IsSpace(w[0]);
      assert (w + x)[1..] == w[1..] + x;
      CollapseWithoutSpace(w[1..], x, sep);
      assert CollapseRuns(w + x, sep) == [w[0]] + (w[1..] + CollapseRuns(x, sep));
      assert [w[0]] + w[1..] == w;
    }
  }

  /** A collapsed string holds no white space when the separator is not white space. */
  lemma {:induction false} CollapseHasNoSpace(s: string, sep: char)
    requires !IsSpace(sep)
    ensures NoSpace(CollapseRuns(s, sep))
    decreases |s|
  {
    if s != [] {
      if IsSpace(s[0]) {
        CollapseHasNoSpace(TrimLeftSpace(s), sep);
      } else {
        CollapseHasNoSpace(s[1..], sep);
      }
    }
  }

  lemma TrimLeftKeeps(s: string, c: char)
    requires !IsSpace(c)
    ensures c in TrimLeftSpace(s) <==> c in s
  {
    var r := TrimLeftSpace(s);
    var d := |s| - |r|;
    assert forall k :: 0 <= k < |r| ==> r[k] == s[d + k];
    if c in s {
      var i :| 0 <= i < |s| && s[i] == c;
      assert i >= d;
      assert r[i - d] == c;
    }
  }

  /** Collapsing keeps every character that is neither white space nor the separator, and adds none. */
  lemma {:induction false} CollapseKeeps(s: string, sep: char, c: char)
    requires !IsSpace(c) && c != sep
    ensures c in CollapseRuns(s, sep) <==> c in s
    decreases |s|
  {
    if s != [] {
      if IsSpace(s[0]) {
        CollapseKeeps(TrimLeftSpace(s), sep, c);
        TrimLeftKeeps(s, c);
      } else {
        CollapseKeeps(s[1..], sep, c);
        assert s == [s[0]] + s[1..];
      }
    }
  }

  /** The fields of a string that starts with a non-space character: its first word, then the rest's. */
  lemma FieldsUnfold(u: string)
    requires u != [] && !IsSpace(u[0])
    ensures Fields(u) == [Word(u)] + Fields(u[|Word(u)|..])
  {
    assert TrimLeftSpace(u) == u;
  }

  /** Leading white space does not change the fields. */
  lemma FieldsSkipLeadingSpace(s: string)
    ensures Fields(s) == Fields(TrimLeftSpace(s))
  {
    var t := TrimLeftSpace(s);
    if t != [] {
      FieldsUnfold(t);
    }
  }

  /** A string whose last character is not white space keeps that character after TrimLeftSpace. */
  lemma TrimLeftKeepsLast(s: string)
    requires s != [] && !IsSpace(s[|s| - 1])
    ensures TrimLeftSpace(s) != [] && TrimLeftSpace(s)[|TrimLeftSpace(s)| - 1] == s[|s| - 1]
  {
  }

  /** What follows the first word of a trimmed `u`: nothing, or a run of white space and then a trimmed rest. */
  lemma AfterFirstWord(u: string)
    requires u != [] && !IsSpace(u[0]) && !IsSpace(u[|u| - 1])
    ensures var rest := u[|Word(u)|..]; var v := TrimLeftSpace(rest);
      rest != [] ==> IsSpace(rest[0]) && v != [] && !IsSpace(v[0]) && !IsSpace(v[|v| - 1]) && |v| < |u|
  {
    var rest := u[|Word(u)|..];
    if rest != [] {
      assert rest[|rest| - 1] == u[|u| - 1];
      TrimLeftKeepsLast(rest);
    }
  }

  /** The fields of a trimmed `u`: its first word, then the fields of what follows the next white-space run. */
  lemma FieldsStep(u: string)
    requires u != [] && !IsSpace(u[0])
    ensures var w := Word(u); var v := TrimLeftSpace(u[|w|..]);
      Fields(u) == [w] + Fields(v) && (v != [] ==> Fields(v) != [])
  {
    var w := Word(u);
    var v := TrimLeftSpace(u[|w|..]);
    FieldsUnfold(u);
    FieldsSkipLeadingSpace(u[|w|..]);
    if v != [] {
      FieldsUnfold(v);
    }
  }

  /** A word followed by a white-space run collapses to the word, one separator, then the collapse of what follows the run. */
  lemma CollapseWordThenRun(w: string, rest: string, sep: char)
    requires NoSpace(w) && rest != [] && IsSpace(rest[0])
    ensures CollapseRuns(w + rest, sep) == w + [sep] + CollapseRuns(TrimLeftSpace(rest), sep)
  {
    CollapseWithoutSpace(w, rest, sep);
    CollapseRun(rest, sep);
  }

  /** The collapse of a trimmed `u`: its first word, then one separator per white-space run. */
  lemma CollapseStep(u: string, sep: char)
    requires u != [] && !IsSpace(u[0])
    ensures var w := Word(u); var rest := u[|w|..];
      && (rest == [] ==> CollapseRuns(u, sep) == w)
      && (rest != [] ==> CollapseRuns(u, sep) == w + [sep] + CollapseRuns(TrimLeftSpace(rest), sep))
  {
    var w := Word(u);
    var rest := u[|w|..];
    assert u == w + rest;
    if rest == [] {
      CollapseWithoutSpace(w, rest, sep);
      assert w + [] == w;
    } else {
      CollapseWordThenRun(w, rest, sep);
    }
  }

  /**
   * For a string with no white space at either end, joining its fields with
   * `sep` is the same as collapsing each white-space run into one `sep`.
   */
  lemma {:induction false} JoinFieldsCollapses(u: string, sep: char)
    requires u == [] || (!IsSpace(u[0]) && !IsSpace(u[|u| - 1]))
    ensures Join(Fields(u), sep) == CollapseRuns(u, sep)
    decreases |u|
  {
    if u != [] {
      var w := Word(u);
      var v := TrimLeftSpace(u[|w|..]);
      AfterFirstWord(u);
      FieldsStep(u);
      CollapseStep(u, sep);
      if u[|w|..] != [] {
        JoinFieldsCollapses(v, sep);
        assert Join([w] + Fields(v), sep) == w + [sep] + Join(Fields(v), sep);
      }
    }
  }

  // ---------------------------------------------------------------------------
  // Ordering and case

  /** Go's `a < b` on strings: lexicographic order of the characters. */
  predicate Less(a: string, b: string)
    decreases |a|
  {
    |b| > 0 && (|a| == 0 || a[0] < b[0] || (a[0] == b[0] && Less(a[1..], b[1..])))
  }

  lemma {:induction false} LessIrreflexive(a: string)
    ensures !Less(a, a)
    decreases |a|
  {
    if |a| > 0 { LessIrreflexive(a[1..]); }
  }

  lemma {:induction false} LessTransitive(a: string, b: string, c: string)
    requires Less(a, b) && Less(b, c)
    ensures Less(a, c)
    decreases |a|
  {
    if |a| > 0 && a[0] == b[0] && b[0] == c[0] {
      LessTransitive(a[1..], b[1..], c[1..]);
    }
  }

  lemma {:induction false} LessTotal(a: string, b: string)
    ensures a == b || Less(a, b) || Less(b, a)
    decreases |a|
  {
    if |a| > 0 && |b| > 0 && a[0] == b[0] {
      LessTotal(a[1..], b[1..]);
      if a[1..] == b[1..] {
        assert a == [a[0]] + a[1..] && b == [b[0]] + b[1..];
      }
    }
  }

  lemma LessAsymmetric(a: string, b: string)
    requires Less(a, b)
    ensures !Less(b, a)
  {
    if Less(b, a) {
      LessTransitive(a, b, a);
      LessIrreflexive(a);
    }
  }

  /** "not after" (`!(b < a)`) is transitive: it is the non-strict order of Go's comparator. */
  lemma NotLessTransitive(a: string, b: string, c: string)
    requires !Less(b, a) && !Less(c, b)
    ensures !Less(c, a)
  {
    LessTotal(a, b);
    LessTotal(b, c);
    if a != b && b != c {
      LessTransitive(a, b, c);
      LessAsymmetric(a, c);
    }
  }

  /** Go's `unicode.ToLower` on the ASCII letters; every other character is left as it is. */
  function LowerChar(c: char): char
  {
    if 'A' <= c <= 'Z' then (c as int + 32) as char else c
  }

  /** Go's `strings.ToLower`, character by character. */
  function Lower(s: string): (r: string)
    ensures |r| == |s|
    ensures forall i :: 0 <= i < |s| ==> r[i] == LowerChar(s[i])
  {
    if s == [] then [] else [LowerChar(s[0])] + Lower(s[1..])
  }
}
