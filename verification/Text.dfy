/** Splitting and joining text; a Go string or byte slice is a `string` with one `char` per byte. */
module Text {

  function Find(s: string, c: char): (i: int)
    ensures -1 <= i < |s|
    ensures i >= 0 ==> s[i] == c
    ensures forall k :: 0 <= k < (if i < 0 then |s| else i) ==> s[k] != c
  {
    if s == "" then -1
    else if s[0] == c then 0
    else
      var i := Find(s[1..], c);
      if i < 0 then -1 else i + 1
  }

  /** strings.Split for a one-character separator. */
  function Split(s: string, sep: char): (parts: seq<string>)
    ensures |parts| >= 1 && forall i :: 0 <= i < |parts| ==> sep !in parts[i]
    decreases |s|
  {
    var i := Find(s, sep);
    if i < 0 then [s] else [s[..i]] + Split(s[i + 1..], sep)
  }

  /** strings.Join for a one-character separator. */
  function Join(parts: seq<string>, sep: char): string {
    if parts == [] then "" else if |parts| == 1 then parts[0] else parts[0] + [sep] + Join(parts[1..], sep)
  }

  lemma FindAt(a: string, c: char, b: string)
    requires c !in a
    ensures Find(a + [c] + b, c) == |a|
  {
    var s := a + [c] + b;
    assert s[|a|] == c;
    assert forall k :: 0 <= k < |a| ==> s[k] == a[k];
  }

  lemma SplitCons(a: string, sep: char, b: string)
    requires sep !in a
    ensures Split(a + [sep] + b, sep) == [a] + Split(b, sep)
  {
    FindAt(a, sep, b);
    var s := a + [sep] + b;
    assert s[..|a|] == a && s[|a| + 1..] == b;
  }

  /** A separator cuts whatever stands before and after it. */
  lemma {:induction false} SplitConcat(a: string, sep: char, b: string)
    ensures Split(a + [sep] + b, sep) == Split(a, sep) + Split(b, sep)
    decreases |a|
  {
    var i := Find(a, sep);
    if i < 0 {
      SplitCons(a, sep, b);
    } else {
      var head, tail := a[..i], a[i + 1..];
      SplitConcat(tail, sep, b);
      SplitCons(head, sep, tail + [sep] + b);
      CutBefore(a, i, sep, b);
      Assoc([head], Split(tail, sep), Split(b, sep));
    }
  }

  lemma CutBefore(a: string, i: nat, sep: char, b: string)
    requires i < |a| && a[i] == sep
    ensures a + [sep] + b == a[..i] + [sep] + (a[i + 1..] + [sep] + b)
  {
    assert a == a[..i] + [sep] + a[i + 1..];
  }

  lemma {:induction false} SplitJoin(parts: seq<string>, sep: char)
    requires |parts| >= 1 && forall i :: 0 <= i < |parts| ==> sep !in parts[i]
    ensures Split(Join(parts, sep), sep) == parts
  {
    if |parts| > 1 {
      SplitCons(parts[0], sep, Join(parts[1..], sep));
      SplitJoin(parts[1..], sep);
    }
  }

  lemma {:induction false} JoinSplit(s: string, sep: char)
    ensures Join(Split(s, sep), sep) == s
    decreases |s|
  {
    var i := Find(s, sep);
    if i >= 0 {
      var rest := Split(s[i + 1..], sep);
      JoinSplit(s[i + 1..], sep);
      assert Join([s[..i]] + rest, sep) == s[..i] + [sep] + Join(rest, sep) by {
        assert ([s[..i]] + rest)[1..] == rest;
      }
      assert s == s[..i] + [sep] + s[i + 1..];
    }
  }

  // ---------------------------------------------------------------- lines

  /** The complete lines of `s`, without their newlines. */
  function Lines(s: string): seq<string>
    decreases |s|
  {
    var i := Find(s, '\n');
    if i < 0 then [] else [s[..i]] + Lines(s[i + 1..])
  }

  /** What follows the last newline. */
  function Rest(s: string): (r: string)
    ensures '\n' !in r
    decreases |s|
  {
    var i := Find(s, '\n');
    if i < 0 then s else Rest(s[i + 1..])
  }

  lemma {:induction false} LinesAreSplit(s: string)
    ensures Split(s, '\n') == Lines(s) + [Rest(s)]
    decreases |s|
  {
    var i := Find(s, '\n');
    if i >= 0 {
      LinesAreSplit(s[i + 1..]);
    }
  }

  lemma LinesCons(a: string, b: string)
    requires '\n' !in a
    ensures Lines(a + "\n" + b) == [a] + Lines(b) && Rest(a + "\n" + b) == Rest(b)
  {
    var s := a + "\n" + b;
    FindAt(a, '\n', b);
    assert s[..|a|] == a && s[|a| + 1..] == b;
  }

  lemma Assoc<T>(x: seq<T>, y: seq<T>, z: seq<T>)
    ensures x + y + z == x + (y + z)
  {
  }

  lemma CutAt(s: string, i: nat, b: string)
    requires i < |s| && s[i] == '\n'
    ensures s == s[..i] + "\n" + s[i + 1..] && s + b == s[..i] + "\n" + (s[i + 1..] + b)
  {
  }

  /** Cutting `a` first and what is left of it together with `b` later gives the lines of `a + b`. */
  lemma {:induction false} LinesConcat(a: string, b: string)
    ensures Lines(a + b) == Lines(a) + Lines(Rest(a) + b) && Rest(a + b) == Rest(Rest(a) + b)
    decreases |a|
  {
    var i := Find(a, '\n');
    if i < 0 {
      assert [] + Lines(a + b) == Lines(a + b);
    } else {
      var head, tail := a[..i], a[i + 1..];
      LinesConcat(tail, b);
      CutAt(a, i, b);
      LinesCons(head, tail + b);
      Assoc([head], Lines(tail), Lines(Rest(tail) + b));
    }
  }

  function Unlines(lines: seq<string>): string {
    if lines == [] then "" else lines[0] + "\n" + Unlines(lines[1..])
  }

  /** Nothing of the stream is lost or duplicated. */
  lemma {:induction false} LinesComplete(s: string)
    ensures Unlines(Lines(s)) + Rest(s) == s
    decreases |s|
  {
    var i := Find(s, '\n');
    if i >= 0 {
      var head, tail := s[..i], s[i + 1..];
      LinesComplete(tail);
      CutAt(s, i, "");
      assert Lines(s)[1..] == Lines(tail);
      Assoc(head + "\n", Unlines(Lines(tail)), Rest(tail));
    }
  }

  /** The lines of lines followed by `tail`, a piece of a line or nothing. */
  lemma {:induction false} SplitFile(lines: seq<string>, tail: string)
    requires (forall i :: 0 <= i < |lines| ==> '\n' !in lines[i]) && '\n' !in tail
    ensures Lines(Unlines(lines) + tail) == lines && Rest(Unlines(lines) + tail) == tail
  {
    if lines == [] {
      assert Unlines(lines) + tail == tail;
    } else {
      SplitFile(lines[1..], tail);
      Assoc(lines[0] + "\n", Unlines(lines[1..]), tail);
      LinesCons(lines[0], Unlines(lines[1..]) + tail);
    }
  }
}
