/**
  The string and path functions of Go's standard library that FileStore.Path composes:
  strings.HasPrefix, strings.TrimPrefix, strings.Contains, strings.ReplaceAll for ":/",
  path.Clean, filepath.Join and filepath.Dir on Unix.

  A path is read as its list of elements (the segments between slashes, without empty and "."
  segments) and whether it is rooted. path.Clean resolves ".." against that list; the
  lemmas below state what the cleaned string's elements are.
 */
module Paths {

  predicate HasPrefix(s: string, pre: string) {
    |pre| <= |s| && s[..|pre|] == pre
  }

  function TrimPrefix(s: string, pre: string): (r: string)
    ensures HasPrefix(s, pre) ==> pre + r == s
    ensures !HasPrefix(s, pre) ==> r == s
  {
    if HasPrefix(s, pre) then s[|pre|..] else s
  }

  /** strings.Contains */
  predicate Contains(s: string, needle: string)
    decreases |s|
  {
    HasPrefix(s, needle) || (s != [] && Contains(s[1..], needle))
  }

  /** A needle found in a suffix of s is found in s. */
  lemma {:induction false} ContainsInSuffix(s: string, k: nat, needle: string)
    requires k <= |s| && Contains(s[k..], needle)
    ensures Contains(s, needle)
  {
    if k > 0 {
      assert s[1..][k - 1..] == s[k..];
      ContainsInSuffix(s[1..], k - 1, needle);
    }
  }

  /** strings.ReplaceAll(s, ":/", "%3A"): occurrences are replaced left to right, without overlap. */
  function EscapeScheme(s: string): (r: string)
    ensures s != [] ==> r != [] && (r[0] == s[0] || r[0] == '%')
    decreases |s|
  {
    if |s| >= 2 && s[0] == ':' && s[1] == '/' then "%3A" + EscapeScheme(s[2..])
    else if s == [] then []
    else [s[0]] + EscapeScheme(s[1..])
  }

  /** No ":/" is left after the replacement. */
  lemma {:induction false} EscapeSchemeRemovesAll(s: string)
    ensures !Contains(EscapeScheme(s), ":/")
    decreases |s|
  {
    if HasPrefix(s, ":/") {
      var t := EscapeScheme(s[2..]);
      EscapeSchemeRemovesAll(s[2..]);
      assert ("%3A" + t)[1..] == "3A" + t && ("%3A" + t)[0] == '%';
      assert ("3A" + t)[1..] == "A" + t && ("3A" + t)[0] == '3';
      assert ("A" + t)[1..] == t && ("A" + t)[0] == 'A';
      assert !Contains("A" + t, ":/");
      assert !Contains("3A" + t, ":/");
    } else if s != [] {
      var t := EscapeScheme(s[1..]);
      EscapeSchemeRemovesAll(s[1..]);
      assert ([s[0]] + t)[1..] == t;
      if s[0] == ':' && t != [] {
        assert |s| >= 2 && s[1] != '/';
        assert t[0] != '/';
      }
    }
  }

  /** A string without ":/" is left as it is. */
  lemma {:induction false} EscapeSchemeKeepsOthers(s: string)
    requires !Contains(s, ":/")
    ensures EscapeScheme(s) == s
    decreases |s|
  {
    if s != [] {
      EscapeSchemeKeepsOthers(s[1..]);
    }
  }

  /** A part without colons is copied unchanged. */
  lemma {:induction false} EscapeSchemeAppend(a: string, b: string)
    requires ':' !in a
    ensures EscapeScheme(a + b) == a + EscapeScheme(b)
    decreases |a|
  {
    if a == [] {
      assert a + b == b;
    } else {
      var rest := a[1..];
      assert ':' !in rest by {
        forall i | 0 <= i < |rest| ensures rest[i] != ':' { assert rest[i] == a[i + 1]; }
      }
      calc {
        EscapeScheme(a + b);
      == { assert (a + b)[0] == a[0] && (a + b)[1..] == rest + b; assert a[0] in a; }
        [a[0]] + EscapeScheme(rest + b);
      == { EscapeSchemeAppend(rest, b); }
        [a[0]] + (rest + EscapeScheme(b));
      == { assert a == [a[0]] + rest; }
        a + EscapeScheme(b);
      }
    }
  }

  /** strings.Split(s, "/"). */
  function Split(s: string): (r: seq<string>)
    ensures |r| >= 1
    decreases |s|
  {
    if s == [] then [[]]
    else
      var rest := Split(s[1..]);
      if s[0] == '/' then [[]] + rest else [[s[0]] + rest[0]] + rest[1..]
  }

  /** strings.Join(elems, "/"). */
  function Join(elems: seq<string>): string
  {
    if elems == [] then []
    else if |elems| == 1 then elems[0]
    else elems[0] + "/" + Join(elems[1..])
  }

  /** The segments that name something: empty segments (repeated slashes) and "." are dropped. */
  function Significant(segs: seq<string>): (r: seq<string>)
    ensures forall e :: e in r ==> e in segs && e != "" && e != "."
  {
    if segs == [] then []
    else (if segs[0] == "" || segs[0] == "." then [] else [segs[0]]) + Significant(segs[1..])
  }

  /** The elements of a path. */
  function Elements(p: string): seq<string> {
    Significant(Split(p))
  }

  predicate Rooted(p: string) {
    |p| > 0 && p[0] == '/'
  }

  /** An element as path.Clean leaves it: non-empty, not ".", without a slash. */
  predicate Plain(e: string) {
    e != "" && e != "." && '/' !in e
  }

  /** Apply one element to the resolved prefix, the way path.Clean treats it. */
  function Step(stack: seq<string>, e: string, rooted: bool): seq<string> {
    if e != ".." then stack + [e]
    else if |stack| > 0 && stack[|stack| - 1] != ".." then stack[..|stack| - 1]
    else if rooted then stack
    else stack + [".."]
  }

  /**
    path.Clean's treatment of ".." elements, left to right: an inner ".." removes the element
    before it; a ".." at the start of a rooted path is dropped; a ".." at the start of a
    relative path is kept.
   */
  function Resolve(stack: seq<string>, elems: seq<string>, rooted: bool): seq<string>
    decreases |elems|
  {
    if elems == [] then stack else Resolve(Step(stack, elems[0], rooted), elems[1..], rooted)
  }

  /** path.Clean */
  function Clean(p: string): string {
    var out := Resolve([], Elements(p), Rooted(p));
    if Rooted(p) then "/" + Join(out)
    else if out == [] then "."
    else Join(out)
  }

  /** filepath.Join(base, rest) on Unix: empty arguments are skipped and the result is cleaned. */
  function JoinPath(base: string, rest: string): string {
    if base != "" then Clean(base + "/" + rest)
    else if rest != "" then Clean(rest)
    else ""
  }

  /** The index of the last slash of p, or -1. */
  function LastSlash(p: string): (i: int)
    ensures -1 <= i < |p|
    ensures i >= 0 ==> p[i] == '/'
    ensures forall j :: i < j < |p| ==> p[j] != '/'
  {
    if p == [] then -1
    else if p[|p| - 1] == '/' then |p| - 1
    else LastSlash(p[..|p| - 1])
  }

  /** filepath.Dir on Unix: everything up to the last slash, cleaned. */
  function Dir(p: string): string {
    Clean(p[..LastSlash(p) + 1])
  }

  // ---------------------------------------------------------------------------------------
  // Splitting and joining

  lemma {:induction false} SplitAppend(a: string, b: string)
    ensures Split(a + "/" + b) == Split(a) + Split(b)
    decreases |a|
  {
    if a == [] {
      assert a + "/" + b == "/" + b;
      assert ("/" + b)[1..] == b;
    } else {
      assert (a + "/" + b)[1..] == a[1..] + "/" + b;
      SplitAppend(a[1..], b);
    }
  }

  lemma {:induction false} SplitSingle(e: string)
    requires '/' !in e
    ensures Split(e) == [e]
    decreases |e|
  {
    if e != [] {
      assert '/' !in e[1..] by {
        forall i | 0 <= i < |e[1..]| ensures e[1..][i] != '/' { assert e[1..][i] == e[i + 1]; }
      }
      SplitSingle(e[1..]);
      assert [e[0]] + e[1..] == e;
    }
  }

  lemma {:induction false} SplitJoin(xs: seq<string>)
    requires |xs| >= 1
    requires forall i :: 0 <= i < |xs| ==> '/' !in xs[i]
    ensures Split(Join(xs)) == xs
    decreases |xs|
  {
    if |xs| == 1 {
      SplitSingle(xs[0]);
    } else {
      SplitJoin(xs[1..]);
      SplitSingle(xs[0]);
      SplitAppend(xs[0], Join(xs[1..]));
    }
  }

  lemma {:induction false} SignificantAppend(x: seq<string>, y: seq<string>)
    ensures Significant(x + y) == Significant(x) + Significant(y)
    decreases |x|
  {
    if x == [] {
      assert x + y == y;
    } else {
      assert (x + y)[0] == x[0];
      assert (x + y)[1..] == x[1..] + y;
      SignificantAppend(x[1..], y);
    }
  }

  lemma {:induction false} SignificantOfPlain(xs: seq<string>)
    requires forall e :: e in xs ==> Plain(e)
    ensures Significant(xs) == xs
    decreases |xs|
  {
    if xs != [] {
      assert xs[0] in xs;
      forall e | e in xs[1..] ensures Plain(e) { assert e in xs; }
      SignificantOfPlain(xs[1..]);
    }
  }

  /** Joining two paths with a slash concatenates their elements. */
  lemma ElementsAppend(a: string, b: string)
    ensures Elements(a + "/" + b) == Elements(a) + Elements(b)
  {
    SplitAppend(a, b);
    SignificantAppend(Split(a), Split(b));
  }

  /** Every segment of a split is free of slashes. */
  lemma {:induction false} SplitNoSlash(s: string)
    ensures forall e :: e in Split(s) ==> '/' !in e
    decreases |s|
  {
    if s != [] {
      SplitNoSlash(s[1..]);
      var rest := Split(s[1..]);
      if s[0] != '/' {
        assert rest[0] in rest;
        assert '/' !in [s[0]] + rest[0];
        forall e | e in rest[1..] ensures e in rest { }
      }
    }
  }

  lemma ElementsArePlain(p: string)
    ensures forall e :: e in Elements(p) ==> Plain(e)
  {
    SplitNoSlash(p);
  }

  /** Joined plain elements split back into the same elements. */
  lemma ElementsJoin(xs: seq<string>)
    requires forall e :: e in xs ==> Plain(e)
    ensures Elements(Join(xs)) == xs
    ensures Elements("/" + Join(xs)) == xs
  {
    var j := Join(xs);
    if xs == [] {
      assert j == [];
      assert Split(j) == [[]];
    } else {
      forall i | 0 <= i < |xs| ensures '/' !in xs[i] { assert xs[i] in xs; }
      SplitJoin(xs);
      SignificantOfPlain(xs);
    }
    RootKeepsElements(j);
  }

  /** A leading slash adds no element. */
  lemma RootKeepsElements(s: string)
    ensures Elements("/" + s) == Elements(s)
  {
    assert "/" + s == [] + "/" + s;
    ElementsAppend([], s);
    assert Elements([]) == [] by { assert Split([]) == [[]]; }
  }

  // ---------------------------------------------------------------------------------------
  // Resolving ".."

  lemma {:induction false} ResolveAppend(stack: seq<string>, xs: seq<string>, ys: seq<string>, rooted: bool)
    ensures Resolve(stack, xs + ys, rooted) == Resolve(Resolve(stack, xs, rooted), ys, rooted)
    decreases |xs|
  {
    if xs == [] {
      assert xs + ys == ys;
    } else {
      assert (xs + ys)[0] == xs[0];
      assert (xs + ys)[1..] == xs[1..] + ys;
      ResolveAppend(Step(stack, xs[0], rooted), xs[1..], ys, rooted);
    }
  }

  /** Elements that are not ".." are simply appended. */
  lemma {:induction false} ResolveNoParent(stack: seq<string>, ys: seq<string>, rooted: bool)
    requires forall e :: e in ys ==> e != ".."
    ensures Resolve(stack, ys, rooted) == stack + ys
    decreases |ys|
  {
    if ys != [] {
      assert ys[0] in ys;
      forall e | e in ys[1..] ensures e != ".." { assert e in ys; }
      ResolveNoParent(stack + [ys[0]], ys[1..], rooted);
      assert stack + [ys[0]] + ys[1..] == stack + ys;
    }
  }

  lemma {:induction false} ResolvePlain(stack: seq<string>, elems: seq<string>, rooted: bool)
    requires forall e :: e in stack ==> Plain(e)
    requires forall e :: e in elems ==> Plain(e)
    ensures forall e :: e in Resolve(stack, elems, rooted) ==> Plain(e)
    decreases |elems|
  {
    if elems != [] {
      assert elems[0] in elems;
      var next := Step(stack, elems[0], rooted);
      assert forall e :: e in next ==> e in stack || e == elems[0] || e == "..";
      ResolvePlain(next, elems[1..], rooted);
    }
  }

  /** The elements of the cleaned path are the resolved elements, and cleaning keeps the root. */
  lemma CleanElements(p: string)
    ensures Elements(Clean(p)) == Resolve([], Elements(p), Rooted(p))
    ensures Rooted(Clean(p)) == Rooted(p)
    ensures forall e :: e in Elements(Clean(p)) ==> Plain(e)
  {
    var out := Resolve([], Elements(p), Rooted(p));
    ElementsArePlain(p);
    ResolvePlain([], Elements(p), Rooted(p));
    ElementsJoin(out);
    if Rooted(p) {
      assert Clean(p) == "/" + Join(out);
    } else if out == [] {
      assert Clean(p) == ".";
      assert Elements(".") == Significant(["."]) == [];
    } else {
      assert Clean(p) == Join(out);
      assert out[0] in out;
      JoinStartsWithFirst(out);
    }
  }

  /**
    The shape of a resolved element list: plain elements, the ".." elements all in front, and
    none at all under a root.
   */
  predicate Normal(xs: seq<string>, rooted: bool) {
    && (forall i :: 0 <= i < |xs| ==> Plain(xs[i]))
    && (rooted ==> forall i :: 0 <= i < |xs| ==> xs[i] != "..")
    && (forall i, j :: 0 <= i < j < |xs| && xs[j] == ".." ==> xs[i] == "..")
  }

  lemma StepNormal(stack: seq<string>, e: string, rooted: bool)
    requires Normal(stack, rooted) && Plain(e)
    ensures Normal(Step(stack, e, rooted), rooted)
  {
    var n := |stack|;
    if e == ".." && !(n > 0 && stack[n - 1] != "..") && !rooted {
      var next := stack + [".."];
      assert forall i :: 0 <= i < n ==> stack[i] == ".." by {
        forall i | 0 <= i < n ensures stack[i] == ".." {
          if i < n - 1 { assert stack[n - 1] == ".."; }
        }
      }
      assert forall i :: 0 <= i < |next| ==> next[i] == "..";
    } else if e == ".." && n > 0 && stack[n - 1] != ".." {
      var next := stack[..n - 1];
      assert forall i :: 0 <= i < |next| ==> next[i] == stack[i];
    }
  }

  /** Resolving plain elements onto a resolved list gives a resolved list. */
  lemma {:induction false} ResolveNormal(stack: seq<string>, elems: seq<string>, rooted: bool)
    requires Normal(stack, rooted)
    requires forall e :: e in elems ==> Plain(e)
    ensures Normal(Resolve(stack, elems, rooted), rooted)
    decreases |elems|
  {
    if elems != [] {
      assert elems[0] in elems;
      StepNormal(stack, elems[0], rooted);
      ResolveNormal(Step(stack, elems[0], rooted), elems[1..], rooted);
    }
  }

  /** A resolved list is left as it is. */
  lemma {:induction false} ResolveOfNormal(stack: seq<string>, elems: seq<string>, rooted: bool)
    requires Normal(stack + elems, rooted)
    ensures Resolve(stack, elems, rooted) == stack + elems
    decreases |elems|
  {
    if elems != [] {
      var all := stack + elems;
      var n := |stack|;
      assert all[n] == elems[0];
      if elems[0] == ".." && n > 0 {
        assert all[n - 1] == stack[n - 1];
      }
      assert Step(stack, elems[0], rooted) == stack + [elems[0]];
      assert stack + [elems[0]] + elems[1..] == all;
      ResolveOfNormal(stack + [elems[0]], elems[1..], rooted);
    }
  }

  /** path.Clean is idempotent: cleaning a cleaned path changes nothing. */
  lemma CleanIdempotent(p: string)
    ensures Clean(Clean(p)) == Clean(p)
  {
    var out := Resolve([], Elements(p), Rooted(p));
    CleanElements(p);
    ElementsArePlain(p);
    ResolveNormal([], Elements(p), Rooted(p));
    assert [] + out == out;
    ResolveOfNormal([], out, Rooted(p));
  }

  lemma {:induction false} JoinStartsWithFirst(xs: seq<string>)
    requires xs != [] && xs[0] != ""
    ensures Join(xs) != "" && Join(xs)[0] == xs[0][0]
  {
  }

  /** Plain elements without ".." are already clean, as a relative and as a rooted path. */
  lemma CleanOfPlain(xs: seq<string>)
    requires xs != []
    requires forall e :: e in xs ==> Plain(e) && e != ".."
    ensures Clean(Join(xs)) == Join(xs)
    ensures Clean("/" + Join(xs)) == "/" + Join(xs)
  {
    ElementsJoin(xs);
    ResolveNoParent([], xs, false);
    ResolveNoParent([], xs, true);
    assert xs[0] in xs;
    JoinStartsWithFirst(xs);
  }

  /**
    Joining a base with a relative path whose elements contain no "..": the result keeps the
    base's root, and its elements are the cleaned base's followed by the relative path's.
   */
  lemma JoinWithoutParent(base: string, rest: string)
    requires base != ""
    requires forall e :: e in Elements(rest) ==> e != ".."
    ensures Rooted(JoinPath(base, rest)) == Rooted(base)
    ensures Elements(JoinPath(base, rest)) == Elements(Clean(base)) + Elements(rest)
  {
    var joined := base + "/" + rest;
    var rooted := Rooted(base);
    assert Rooted(joined) == rooted;
    CleanElements(joined);
    CleanElements(base);
    ElementsAppend(base, rest);
    ResolveAppend([], Elements(base), Elements(rest), rooted);
    ResolveNoParent(Resolve([], Elements(base), rooted), Elements(rest), rooted);
  }

  // ---------------------------------------------------------------------------------------
  // Dot segments

  predicate NoLeadingDot(e: string) {
    e == [] || e[0] != '.'
  }

  /**
    In a string without "/.", no segment after the first starts with a dot, and the first
    segment starts with the string's first character.
   */
  lemma {:induction false} SplitDotFree(s: string)
    requires !Contains(s, "/.")
    ensures forall i :: 1 <= i < |Split(s)| ==> NoLeadingDot(Split(s)[i])
    ensures s != [] && s[0] != '/' ==> Split(s)[0] != [] && Split(s)[0][0] == s[0]
    ensures s != [] && s[0] == '/' ==> Split(s)[0] == []
    ensures s == [] ==> Split(s)[0] == []
    decreases |s|
  {
    if s != [] {
      assert !Contains(s[1..], "/.");
      SplitDotFree(s[1..]);
      var rest := Split(s[1..]);
      if s[0] == '/' {
        assert !HasPrefix(s, "/.");
        if |s| >= 2 { assert s[..2] == [s[0], s[1]]; assert s[1] != '.'; }
        assert Split(s) == [[]] + rest;
        forall i | 1 <= i < |Split(s)| ensures NoLeadingDot(Split(s)[i]) {
          assert Split(s)[i] == rest[i - 1];
        }
      } else {
        assert Split(s) == [[s[0]] + rest[0]] + rest[1..];
        forall i | 1 <= i < |Split(s)| ensures NoLeadingDot(Split(s)[i]) {
          assert Split(s)[i] == rest[i];
        }
      }
    }
  }

  /** A path without "/." that does not start with a dot has no element starting with a dot. */
  lemma DotFreeElements(s: string)
    requires !Contains(s, "/.")
    requires s == [] || s[0] != '.'
    ensures forall e :: e in Elements(s) ==> e[0] != '.'
  {
    SplitDotFree(s);
    var segs := Split(s);
    forall e | e in Elements(s) ensures e[0] != '.' {
      assert e in segs && e != "";
      var i :| 0 <= i < |segs| && segs[i] == e;
      assert NoLeadingDot(segs[i]);
    }
  }

  // ---------------------------------------------------------------------------------------
  // The scheme separator ":/"

  /** No ':' is directly followed by '/'. */
  predicate NoSchemeSeparator(s: string) {
    forall k :: 0 <= k < |s| - 1 ==> !(s[k] == ':' && s[k + 1] == '/')
  }

  /** strings.Contains(s, ":/") holds exactly when some ':' is directly followed by '/'. */
  lemma {:induction false} ContainsSeparator(s: string)
    ensures Contains(s, ":/") <==> !NoSchemeSeparator(s)
    decreases |s|
  {
    if s != [] {
      var t := s[1..];
      ContainsSeparator(t);
      if |s| >= 2 {
        assert s[..2] == [s[0], s[1]];
      }
      assert NoSchemeSeparator(s) <==> !(|s| >= 2 && s[0] == ':' && s[1] == '/') && NoSchemeSeparator(t) by {
        if NoSchemeSeparator(s) {
          forall k | 0 <= k < |t| - 1 ensures !(t[k] == ':' && t[k + 1] == '/') {
            assert t[k] == s[k + 1] && t[k + 1] == s[k + 2];
          }
        }
        if !(|s| >= 2 && s[0] == ':' && s[1] == '/') && NoSchemeSeparator(t) {
          forall k | 0 <= k < |s| - 1 ensures !(s[k] == ':' && s[k + 1] == '/') {
            if k > 0 { assert s[k] == t[k - 1] && s[k + 1] == t[k]; }
          }
        }
      }
    }
  }

  predicate EndsWithColon(e: string) {
    |e| > 0 && e[|e| - 1] == ':'
  }

  /** Only the last element of the list may end with a colon. */
  predicate ColonOnlyLast(xs: seq<string>) {
    forall i :: 0 <= i < |xs| - 1 ==> !EndsWithColon(xs[i])
  }

  /** Every segment but the last is followed by a slash, so without ":/" it cannot end with ':'. */
  lemma {:induction false} SplitColonOnlyLast(s: string)
    requires NoSchemeSeparator(s)
    ensures ColonOnlyLast(Split(s))
    decreases |s|
  {
    if s != [] {
      var t := s[1..];
      assert NoSchemeSeparator(t) by {
        forall k | 0 <= k < |t| - 1 ensures !(t[k] == ':' && t[k + 1] == '/') {
          assert t[k] == s[k + 1] && t[k + 1] == s[k + 2];
        }
      }
      SplitColonOnlyLast(t);
      var rest := Split(t);
      var segs := Split(s);
      if s[0] == '/' {
        assert segs == [[]] + rest;
        forall i | 0 <= i < |segs| - 1 ensures !EndsWithColon(segs[i]) {
          if i > 0 { assert segs[i] == rest[i - 1]; }
        }
      } else {
        var first := [s[0]] + rest[0];
        assert segs == [first] + rest[1..];
        if |rest| > 1 {
          assert t != [];
          if rest[0] == [] {
            assert t[0] == '/';
            assert s[0] != ':';
            assert first == [s[0]];
          } else {
            assert first[|first| - 1] == rest[0][|rest[0]| - 1];
          }
          assert !EndsWithColon(first);
        }
        forall i | 0 <= i < |segs| - 1 ensures !EndsWithColon(segs[i]) {
          if i > 0 { assert segs[i] == rest[i]; }
        }
      }
    }
  }

  /** Dropping empty and "." segments keeps a colon-ended element last. */
  lemma {:induction false} SignificantColonOnlyLast(segs: seq<string>)
    requires ColonOnlyLast(segs)
    ensures ColonOnlyLast(Significant(segs))
    decreases |segs|
  {
    if segs != [] {
      var tail := segs[1..];
      assert ColonOnlyLast(tail) by {
        forall i | 0 <= i < |tail| - 1 ensures !EndsWithColon(tail[i]) { assert tail[i] == segs[i + 1]; }
      }
      SignificantColonOnlyLast(tail);
      var rest := Significant(tail);
      if segs[0] != "" && segs[0] != "." && rest != [] {
        assert tail != [];
        assert !EndsWithColon(segs[0]);
        var r := [segs[0]] + rest;
        assert Significant(segs) == r;
        forall i | 0 <= i < |r| - 1 ensures !EndsWithColon(r[i]) {
          if i > 0 { assert r[i] == rest[i - 1]; }
        }
      }
    }
  }

  /**
    Resolving ".." only appends or removes elements before the last one, so an element ending
    with ':' stays last.
   */
  lemma {:induction false} ResolveColonOnlyLast(stack: seq<string>, elems: seq<string>, rooted: bool)
    requires ColonOnlyLast(stack + elems)
    ensures ColonOnlyLast(Resolve(stack, elems, rooted))
    decreases |elems|
  {
    if elems == [] {
      assert stack + elems == stack;
    } else {
      var all := stack + elems;
      var e := elems[0];
      var n := |stack|;
      var next := Step(stack, e, rooted);
      var rest := elems[1..];
      var r := next + rest;
      assert elems == [e] + rest;
      if e != ".." || (!(n > 0 && stack[n - 1] != "..") && !rooted) {
        assert r == all;
      } else if n > 0 && stack[n - 1] != ".." {
        assert |r| == |all| - 2;
        forall i | 0 <= i < |r| - 1 ensures !EndsWithColon(r[i]) {
          if i < n - 1 { assert r[i] == all[i]; } else { assert r[i] == all[i + 2]; }
        }
      } else {
        assert |r| == |all| - 1;
        forall i | 0 <= i < |r| - 1 ensures !EndsWithColon(r[i]) {
          if i < n { assert r[i] == all[i]; } else { assert r[i] == all[i + 1]; }
        }
      }
      ResolveColonOnlyLast(next, rest, rooted);
    }
  }

  /** Slash-free elements of which only the last may end with ':' join, behind a slash, without ":/". */
  lemma {:induction false} JoinNoSchemeSeparator(xs: seq<string>)
    requires forall e :: e in xs ==> '/' !in e
    requires ColonOnlyLast(xs)
    ensures NoSchemeSeparator("/" + Join(xs))
    decreases |xs|
  {
    if xs != [] {
      var head := "/" + xs[0];
      assert xs[0] in xs;
      assert NoSchemeSeparator(head) by {
        forall k | 0 <= k < |head| - 1 ensures !(head[k] == ':' && head[k + 1] == '/') {
          assert head[k + 1] == xs[0][k];
        }
      }
      if |xs| == 1 {
        assert "/" + Join(xs) == head;
      } else {
        var tail := xs[1..];
        forall e | e in tail ensures '/' !in e { assert e in xs; }
        assert ColonOnlyLast(tail) by {
          forall i | 0 <= i < |tail| - 1 ensures !EndsWithColon(tail[i]) { assert tail[i] == xs[i + 1]; }
        }
        JoinNoSchemeSeparator(tail);
        var rest := "/" + Join(tail);
        var s := head + rest;
        assert "/" + Join(xs) == s;
        assert !EndsWithColon(xs[0]);
        assert head[|head| - 1] != ':';
        forall k | 0 <= k < |s| - 1 ensures !(s[k] == ':' && s[k + 1] == '/') {
          if k < |head| - 1 {
            assert s[k] == head[k] && s[k + 1] == head[k + 1];
          } else if k == |head| - 1 {
            assert s[k] == head[k];
          } else {
            assert s[k] == rest[k - |head|] && s[k + 1] == rest[k + 1 - |head|];
          }
        }
      }
    }
  }
}
