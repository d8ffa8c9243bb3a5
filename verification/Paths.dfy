/** filepath.Clean on slash-separated paths. */
module Paths {
  import opened Text

  predicate Rooted(p: string) {
    p != "" && p[0] == '/'
  }

  /** One path element applied to the elements kept so far. */
  function Push(stack: seq<string>, part: string, rooted: bool): seq<string> {
    if part == "" || part == "." then stack
    else if part != ".." then stack + [part]
    else if stack != [] && stack[|stack| - 1] != ".." then stack[..|stack| - 1]
    else if rooted then stack
    else stack + [part]
  }

  function Normalize(parts: seq<string>, stack: seq<string>, rooted: bool): seq<string> {
    if parts == [] then stack else Normalize(parts[1..], Push(stack, parts[0], rooted), rooted)
  }

  function Render(stack: seq<string>, rooted: bool): string {
    if rooted then "/" + Join(stack, '/') else if stack == [] then "." else Join(stack, '/')
  }

  function Clean(p: string): string {
    Render(Normalize(Split(p, '/'), [], Rooted(p)), Rooted(p))
  }

  /** Elements left by Clean: none empty or ".", and ".." only as a prefix of a relative path. */
  ghost predicate Canonical(stack: seq<string>, rooted: bool) {
    && (forall i :: 0 <= i < |stack| ==> stack[i] != "" && stack[i] != "." && '/' !in stack[i])
    && (forall i :: 0 <= i < |stack| && stack[i] == ".." ==> !rooted && forall j :: 0 <= j < i ==> stack[j] == "..")
  }

  lemma {:induction false} NormalizeCanonical(parts: seq<string>, stack: seq<string>, rooted: bool)
    requires Canonical(stack, rooted) && forall i :: 0 <= i < |parts| ==> '/' !in parts[i]
    ensures Canonical(Normalize(parts, stack, rooted), rooted)
    decreases |parts|
  {
    if parts != [] {
      var next := Push(stack, parts[0], rooted);
      if parts[0] == ".." && next == stack + [parts[0]] && stack != [] {
        assert stack[|stack| - 1] == "..";
      }
      NormalizeCanonical(parts[1..], next, rooted);
    }
  }

  lemma {:induction false} NormalizeKeeps(parts: seq<string>, stack: seq<string>, rooted: bool)
    requires Canonical(stack + parts, rooted)
    ensures Normalize(parts, stack, rooted) == stack + parts
    decreases |parts|
  {
    if parts == [] {
      assert stack + parts == stack;
    } else {
      var all := stack + parts;
      assert all[|stack|] == parts[0];
      if stack != [] {
        assert all[|stack| - 1] == stack[|stack| - 1];
      }
      assert Push(stack, parts[0], rooted) == stack + [parts[0]];
      assert stack + [parts[0]] + parts[1..] == all;
      NormalizeKeeps(parts[1..], stack + [parts[0]], rooted);
    }
  }

  lemma JoinStart(stack: seq<string>)
    requires stack != [] && stack[0] != "" && '/' !in stack[0]
    ensures Join(stack, '/') != "" && !Rooted(Join(stack, '/'))
  {
    assert stack[0][0] != '/';
  }

  /** The empty element before the leading slash is dropped. */
  lemma SkipEmpty(rest: seq<string>)
    ensures Normalize([""] + rest, [], true) == Normalize(rest, [], true)
  {
    assert ([""] + rest)[1..] == rest;
  }

  lemma SplitRooted(stack: seq<string>)
    requires Canonical(stack, true)
    ensures Normalize(Split("/" + Join(stack, '/'), '/'), [], true) == stack
  {
    var rest := if stack == [] then [""] else stack;
    SplitCons("", '/', Join(stack, '/'));
    assert "" + ['/'] + Join(stack, '/') == "/" + Join(stack, '/');
    SplitJoin(rest, '/');
    assert Join(rest, '/') == Join(stack, '/');
    SkipEmpty(rest);
    if stack == [] {
      SkipEmpty([]);
      assert [""] + [] == rest;
    } else {
      assert [] + stack == stack;
      NormalizeKeeps(stack, [], true);
    }
  }

  /** Cleaning a clean path changes nothing, so comparing cleaned paths is comparing canonical ones. */
  lemma CleanIdempotent(p: string)
    ensures Clean(Clean(p)) == Clean(p)
  {
    var rooted := Rooted(p);
    var stack := Normalize(Split(p, '/'), [], rooted);
    NormalizeCanonical(Split(p, '/'), [], rooted);
    if rooted {
      SplitRooted(stack);
    } else if stack == [] {
      assert Split(".", '/') == ["."];
    } else {
      JoinStart(stack);
      SplitJoin(stack, '/');
      assert [] + stack == stack;
      NormalizeKeeps(stack, [], false);
    }
  }

  // ---------------------------------------------------------------- the rules of filepath.Clean

  lemma {:induction false} NormalizeConcat(a: seq<string>, b: seq<string>, stack: seq<string>, rooted: bool)
    ensures Normalize(a + b, stack, rooted) == Normalize(b, Normalize(a, stack, rooted), rooted)
    decreases |a|
  {
    if a == [] {
      assert a + b == b;
    } else {
      assert (a + b)[1..] == a[1..] + b;
      NormalizeConcat(a[1..], b, Push(stack, a[0], rooted), rooted);
    }
  }

  /** The elements that path `x`, continued by the elements of `y`, is reduced to. */
  function Reduced(x: string, y: string, rooted: bool): seq<string> {
    Normalize(Split(y, '/'), Normalize(Split(x, '/'), [], rooted), rooted)
  }

  lemma ReducedConcat(x: string, y: string, rooted: bool)
    ensures Normalize(Split(x + "/" + y, '/'), [], rooted) == Reduced(x, y, rooted)
  {
    SplitConcat(x, '/', y);
    NormalizeConcat(Split(x, '/'), Split(y, '/'), [], rooted);
  }

  /** `y` adds what `z` adds, whatever the path before it. */
  lemma SameAfter(x: string, y: string, z: string)
    requires var rooted := x == "" || Rooted(x); Reduced(x, y, rooted) == Reduced(x, z, rooted)
    ensures Clean(x + "/" + y) == Clean(x + "/" + z)
  {
    var rooted := x == "" || Rooted(x);
    assert Rooted(x + "/" + y) == rooted && Rooted(x + "/" + z) == rooted;
    ReducedConcat(x, y, rooted);
    ReducedConcat(x, z, rooted);
  }

  lemma SplitElement(part: string, y: string)
    requires '/' !in part
    ensures Split(part + "/" + y, '/') == [part] + Split(y, '/')
  {
    SplitCons(part, '/', y);
  }

  lemma NormalizeFirst(part: string, rest: seq<string>, stack: seq<string>, rooted: bool)
    ensures Normalize([part] + rest, stack, rooted) == Normalize(rest, Push(stack, part, rooted), rooted)
  {
    assert ([part] + rest)[1..] == rest;
  }

  /** Multiple slashes count as one. */
  lemma CleanSlashes(x: string, y: string)
    ensures Clean(x + "/" + ("/" + y)) == Clean(x + "/" + y)
  {
    CleanElement(x, "", y);
    assert "" + "/" + y == "/" + y;
  }

  lemma CleanElement(x: string, part: string, y: string)
    requires part == "" || part == "."
    ensures Clean(x + "/" + (part + "/" + y)) == Clean(x + "/" + y)
  {
    var rooted := x == "" || Rooted(x);
    SplitElement(part, y);
    NormalizeFirst(part, Split(y, '/'), Normalize(Split(x, '/'), [], rooted), rooted);
    SameAfter(x, part + "/" + y, y);
  }

  /** The current directory is dropped. */
  lemma CleanDot(x: string, y: string)
    ensures Clean(x + "/" + ("." + "/" + y)) == Clean(x + "/" + y)
  {
    CleanElement(x, ".", y);
  }

  lemma PushAndPop(part: string, rest: seq<string>, stack: seq<string>, rooted: bool)
    requires part != "" && part != "." && part != ".."
    ensures Normalize([part] + ([".."] + rest), stack, rooted) == Normalize(rest, stack, rooted)
  {
    NormalizeFirst(part, [".."] + rest, stack, rooted);
    NormalizeFirst("..", rest, stack + [part], rooted);
    assert (stack + [part])[..|stack|] == stack;
  }

  /** A parent directory goes together with the element before it. */
  lemma CleanParent(x: string, part: string, y: string)
    requires '/' !in part && part != "" && part != "." && part != ".."
    ensures Clean(x + "/" + (part + "/" + (".." + "/" + y))) == Clean(x + "/" + y)
  {
    var rooted := x == "" || Rooted(x);
    SplitElement("..", y);
    SplitElement(part, ".." + "/" + y);
    PushAndPop(part, Split(y, '/'), Normalize(Split(x, '/'), [], rooted), rooted);
    SameAfter(x, part + "/" + (".." + "/" + y), y);
  }

  /** Above the root there is only the root. */
  lemma CleanRootParent(y: string)
    ensures Clean("" + "/" + (".." + "/" + y)) == Clean("" + "/" + y)
  {
    SplitElement("..", y);
    assert Split("", '/') == [""] && Normalize([""], [], true) == [];
    NormalizeFirst("..", Split(y, '/'), [], true);
    SameAfter("", ".." + "/" + y, y);
  }

  /** A path of plain elements is kept as it is. */
  lemma CleanKeeps(stack: seq<string>)
    requires Canonical(stack, true)
    ensures Clean("/" + Join(stack, '/')) == "/" + Join(stack, '/')
  {
    SplitRooted(stack);
  }

  /** A cleaned rooted path consists of plain elements. */
  lemma CleanIsPlain(p: string) returns (stack: seq<string>)
    requires Rooted(p)
    ensures Canonical(stack, true) && Clean(p) == "/" + Join(stack, '/')
  {
    stack := Normalize(Split(p, '/'), [], true);
    NormalizeCanonical(Split(p, '/'), [], true);
  }

  // ---------------------------------------------------------------- characters

  /** Every character of `s` is one of `cs`. */
  predicate Within(s: string, cs: set<char>) {
    forall i :: 0 <= i < |s| ==> s[i] in cs
  }

  predicate AllWithin(parts: seq<string>, cs: set<char>) {
    forall i :: 0 <= i < |parts| ==> Within(parts[i], cs)
  }

  lemma {:induction false} SplitWithin(s: string, cs: set<char>)
    requires Within(s, cs)
    ensures AllWithin(Split(s, '/'), cs)
    decreases |s|
  {
    var i := Find(s, '/');
    if i >= 0 {
      SplitWithin(s[i + 1..], cs);
    }
  }

  lemma {:induction false} NormalizeWithin(parts: seq<string>, stack: seq<string>, rooted: bool, cs: set<char>)
    requires AllWithin(parts, cs) && AllWithin(stack, cs)
    ensures AllWithin(Normalize(parts, stack, rooted), cs)
    decreases |parts|
  {
    if parts != [] {
      NormalizeWithin(parts[1..], Push(stack, parts[0], rooted), rooted, cs);
    }
  }

  lemma {:induction false} JoinWithin(parts: seq<string>, cs: set<char>)
    requires AllWithin(parts, cs) && '/' in cs
    ensures Within(Join(parts, '/'), cs)
  {
    if |parts| > 1 {
      JoinWithin(parts[1..], cs);
    }
  }

  /** Cleaning brings in no character but the slash and the dot. */
  lemma CleanWithin(p: string, cs: set<char>)
    requires Within(p, cs) && '/' in cs && '.' in cs
    ensures Within(Clean(p), cs)
  {
    SplitWithin(p, cs);
    NormalizeWithin(Split(p, '/'), [], Rooted(p), cs);
    JoinWithin(Normalize(Split(p, '/'), [], Rooted(p)), cs);
  }

  /** Every character stands for a byte. */
  predicate Bytes(s: string) {
    forall i :: 0 <= i < |s| ==> s[i] as int < 256
  }

  lemma CleanBytes(p: string)
    requires Bytes(p)
    ensures Bytes(Clean(p))
  {
    CleanWithin(p, (set i | 0 <= i < |p| :: p[i]) + {'/', '.'});
  }
}
