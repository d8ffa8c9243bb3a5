/**
 * Reading mount points from /proc/self/mountinfo. The kernel prints each mount point with space,
 * tab, newline and backslash as octal escapes (section 3.5 of the Linux `proc` documentation).
 * Strings are sequences of Unicode characters here.
 */
module MountInfo {
  import opened Text
  import opened Paths

  // ---------------------------------------------------------------- escaping

  predicate Escaped(c: char) {
    c == ' ' || c == '\t' || c == '\n' || c == '\\'
  }

  function EscapeChar(c: char): string {
    if c == ' ' then "\\040" else if c == '\t' then "\\011" else if c == '\n' then "\\012"
    else if c == '\\' then "\\134" else [c]
  }

  /** What the kernel prints for a path. */
  function Escape(path: string): string {
    if path == "" then "" else EscapeChar(path[0]) + Escape(path[1..])
  }

  /** unescapeMountInfoPath: the replacements are tried in order at each position, left to right. */
  function Unescape(s: string): string
    decreases |s|
  {
    if s == "" then ""
    else if "\\040" <= s then " " + Unescape(s[4..])
    else if "\\011" <= s then "\t" + Unescape(s[4..])
    else if "\\012" <= s then "\n" + Unescape(s[4..])
    else if "\\134" <= s then "\\" + Unescape(s[4..])
    else [s[0]] + Unescape(s[1..])
  }

  lemma UnescapeFirst(c: char, rest: string)
    ensures Unescape(EscapeChar(c) + rest) == [c] + Unescape(rest)
  {
    var s := EscapeChar(c) + rest;
    if Escaped(c) {
      assert s[..4] == EscapeChar(c) && s[4..] == rest;
      assert s[2] == EscapeChar(c)[2] && s[3] == EscapeChar(c)[3];
    } else {
      assert s[0] == c && s[1..] == rest;
    }
  }

  /** Unescaping undoes the kernel's escaping of every path. */
  lemma {:induction false} UnescapeEscape(path: string)
    ensures Unescape(Escape(path)) == path
  {
    if path != "" {
      UnescapeEscape(path[1..]);
      UnescapeFirst(path[0], Escape(path[1..]));
    }
  }

  // ---------------------------------------------------------------- fields

  /** unicode.IsSpace. */
  predicate IsSpace(c: char) {
    || '\t' <= c <= '\r' || c == ' ' || c == '\U{85}' || c == '\U{A0}' || c == '\U{1680}'
    || '\U{2000}' <= c <= '\U{200A}' || c == '\U{2028}' || c == '\U{2029}' || c == '\U{202F}'
    || c == '\U{205F}' || c == '\U{3000}'
  }

  /** White space that the kernel does not escape. */
  predicate BareSpace(c: char) {
    IsSpace(c) && !Escaped(c)
  }

  predicate SpaceFree(s: string) {
    forall i :: 0 <= i < |s| ==> !IsSpace(s[i])
  }

  predicate Field(s: string) {
    s != "" && SpaceFree(s)
  }

  /** The leading run of characters that are not white space. */
  function Word(s: string): (w: string)
    ensures |w| <= |s| && w == s[..|w|] && SpaceFree(w) && (|w| < |s| ==> IsSpace(s[|w|]))
  {
    if s == "" || IsSpace(s[0]) then "" else [s[0]] + Word(s[1..])
  }

  /** strings.Fields. */
  function Fields(s: string): seq<string>
    decreases |s|
  {
    if s == "" then []
    else if IsSpace(s[0]) then Fields(s[1..])
    else [Word(s)] + Fields(s[|Word(s)|..])
  }

  lemma WordOf(w: string, rest: string)
    requires SpaceFree(w) && (rest != "" ==> IsSpace(rest[0]))
    ensures Word(w + rest) == w
  {
    var s := w + rest;
    var v := Word(s);
    assert s[..|w|] == w && forall i :: 0 <= i < |w| ==> s[i] == w[i];
    assert |w| < |s| ==> s[|w|] == rest[0];
  }

  lemma FieldThen(w: string, rest: string)
    requires Field(w) && (rest != "" ==> IsSpace(rest[0]))
    ensures Fields(w + rest) == [w] + Fields(rest)
  {
    var s := w + rest;
    WordOf(w, rest);
    assert s[0] == w[0] && s[|w|..] == rest;
  }

  lemma FieldThenSpace(w: string, rest: string)
    requires Field(w)
    ensures Fields(w + " " + rest) == [w] + Fields(rest)
  {
    var tail := " " + rest;
    assert w + " " + rest == w + tail && tail[0] == ' ' && tail[1..] == rest;
    FieldThen(w, tail);
  }

  lemma WordAppend(w: string, rest: string, b: string)
    requires Field(w) && (rest != "" ==> IsSpace(rest[0]))
    requires Fields(rest + " " + b) == Fields(rest) + Fields(b)
    ensures Fields(w + rest + " " + b) == Fields(w + rest) + Fields(b)
  {
    var tail := rest + " " + b;
    FieldThen(w, rest);
    assert tail[0] == if rest == "" then ' ' else rest[0];
    FieldThen(w, tail);
    assert w + rest + " " + b == w + tail;
    Assoc([w], Fields(rest), Fields(b));
  }

  /** A space after `a` cuts as the end of the text does. */
  predicate CutsAfter(a: string, b: string) {
    Fields(a + " " + b) == Fields(a) + Fields(b)
  }

  lemma SpaceAppend(a: string, b: string)
    requires a != "" && IsSpace(a[0]) && CutsAfter(a[1..], b)
    ensures CutsAfter(a, b)
  {
    var s := a + " " + b;
    assert s[0] == a[0] && s[1..] == a[1..] + " " + b;
  }

  lemma FieldAppend(a: string, b: string)
    requires a != "" && !IsSpace(a[0]) && CutsAfter(a[|Word(a)|..], b)
    ensures CutsAfter(a, b)
  {
    var n := |Word(a)|;
    assert a == Word(a) + a[n..];
    WordAppend(Word(a), a[n..], b);
  }

  lemma EmptyAppend(b: string)
    ensures CutsAfter("", b)
  {
    assert "" + " " + b == " " + b && (" " + b)[1..] == b;
  }

  /** Fields are cut at a space as at any other white space. */
  lemma {:induction false} FieldsAppend(a: string, b: string)
    ensures CutsAfter(a, b)
    decreases |a|
  {
    if a == "" {
      EmptyAppend(b);
    } else if IsSpace(a[0]) {
      FieldsAppend(a[1..], b);
      SpaceAppend(a, b);
    } else {
      FieldsAppend(a[|Word(a)|..], b);
      FieldAppend(a, b);
    }
  }

  lemma {:induction false} FieldsAreFields(s: string)
    ensures forall i :: 0 <= i < |Fields(s)| ==> Field(Fields(s)[i])
    decreases |s|
  {
    if s != "" {
      if IsSpace(s[0]) {
        FieldsAreFields(s[1..]);
      } else {
        FieldsAreFields(s[|Word(s)|..]);
      }
    }
  }

  // ---------------------------------------------------------------- a printed table

  /** One line of the table; `root` is the root of the mount within its file system. */
  datatype Entry = Entry(id: string, parent: string, device: string, root: string, path: string, rest: string)

  predicate Printable(e: Entry) {
    Field(e.id) && Field(e.parent) && Field(e.device) && Rooted(e.root) && Rooted(e.path) && '\n' !in e.rest
  }

  function Line(e: Entry): string {
    e.id + " " + (e.parent + " " + (e.device + " " + (Escape(e.root) + " " + (Escape(e.path) + " " + e.rest))))
  }

  /** The printed root falls apart into several fields. */
  predicate Shifted(e: Entry) {
    |Fields(Escape(e.root))| >= 2
  }

  /** The path up to white space that is printed as it is. */
  function Seen(path: string): string {
    if path == "" || BareSpace(path[0]) then "" else [path[0]] + Seen(path[1..])
  }

  /** What the daemon takes for the mount point of a line: its fifth field, unescaped. */
  function SeenOf(e: Entry): string {
    if Shifted(e) then Unescape(Fields(Escape(e.root))[1]) else Seen(e.path)
  }

  lemma EscapeCharSpaceFree(c: char)
    requires !BareSpace(c)
    ensures Field(EscapeChar(c))
  {
  }

  lemma {:induction false} EscapeSeen(path: string)
    ensures SpaceFree(Escape(Seen(path)))
    ensures exists rest :: Escape(path) == Escape(Seen(path)) + rest && (rest != "" ==> IsSpace(rest[0]))
  {
    if path == "" || BareSpace(path[0]) {
      assert Escape(path) == "" + Escape(path);
      assert Escape(path) != "" ==> IsSpace(Escape(path)[0]);
    } else {
      EscapeSeen(path[1..]);
      EscapeCharSpaceFree(path[0]);
      var rest :| Escape(path[1..]) == Escape(Seen(path[1..])) + rest && (rest != "" ==> IsSpace(rest[0]));
      Assoc(EscapeChar(path[0]), Escape(Seen(path[1..])), rest);
      assert Seen(path)[1..] == Seen(path[1..]);
    }
  }

  /** The first field of a printed path. */
  lemma FirstField(path: string)
    requires Rooted(path)
    ensures |Fields(Escape(path))| >= 1 && Fields(Escape(path))[0] == Escape(Seen(path))
  {
    EscapeSeen(path);
    var rest :| Escape(path) == Escape(Seen(path)) + rest && (rest != "" ==> IsSpace(rest[0]));
    assert Seen(path)[0] == '/' && Escape(Seen(path))[0] == '/';
    FieldThen(Escape(Seen(path)), rest);
  }

  lemma LineFields(e: Entry)
    requires Printable(e)
    ensures Fields(Line(e)) == [e.id] + ([e.parent] + ([e.device] +
      (Fields(Escape(e.root)) + (Fields(Escape(e.path)) + Fields(e.rest)))))
  {
    var l5 := Escape(e.path) + " " + e.rest;
    var l4 := Escape(e.root) + " " + l5;
    var l3 := e.device + " " + l4;
    var l2 := e.parent + " " + l3;
    FieldsAppend(Escape(e.path), e.rest);
    FieldsAppend(Escape(e.root), l5);
    FieldThenSpace(e.device, l4);
    FieldThenSpace(e.parent, l3);
    FieldThenSpace(e.id, l2);
  }

  lemma FifthField(e: Entry)
    requires Printable(e)
    ensures |Fields(Line(e))| >= 5 && Unescape(Fields(Line(e))[4]) == SeenOf(e)
  {
    LineFields(e);
    FirstField(e.root);
    FirstField(e.path);
    UnescapeEscape(Seen(e.path));
  }

  /** The line names `want` as its mount point. */
  predicate Names(line: string, want: string) {
    var fields := Fields(line);
    |fields| >= 5 && Clean(Unescape(fields[4])) == want
  }

  function PrintedLines(entries: seq<Entry>): (r: seq<string>)
    ensures |r| == |entries| && forall i :: 0 <= i < |r| ==> r[i] == Line(entries[i])
  {
    seq(|entries|, i requires 0 <= i < |entries| => Line(entries[i]))
  }

  /** The whole of /proc/self/mountinfo. */
  function Printed(entries: seq<Entry>): string {
    Unlines(PrintedLines(entries))
  }

  ghost predicate AllPrintable(entries: seq<Entry>) {
    forall i :: 0 <= i < |entries| ==> Printable(entries[i])
  }

  // ---------------------------------------------------------------- isMountPoint

  /** Some line of the text names this path. */
  ghost predicate Listed(data: string, path: string) {
    exists i :: 0 <= i < |Split(data, '\n')| && Names(Split(data, '\n')[i], Clean(path))
  }

  method IsMountPoint(data: string, mountPath: string) returns (found: bool)
    ensures found <==> Listed(data, mountPath)
  {
    var want := Clean(mountPath);
    var lines := Split(data, '\n');
    for i := 0 to |lines|
      invariant forall j :: 0 <= j < i ==> !Names(lines[j], want)
    {
      var fields := Fields(lines[i]);
      if |fields| < 5 {
        continue;
      }
      if Clean(Unescape(fields[4])) == want {
        assert Names(lines[i], want);
        return true;
      }
    }
    return false;
  }

  lemma {:induction false} EscapeNoNewline(path: string)
    ensures '\n' !in Escape(path)
  {
    if path != "" {
      EscapeNoNewline(path[1..]);
    }
  }

  lemma LineNoNewline(e: Entry)
    requires Printable(e)
    ensures '\n' !in Line(e)
  {
    EscapeNoNewline(e.path);
    EscapeNoNewline(e.root);
    NoNewline(e.id);
    NoNewline(e.parent);
    NoNewline(e.device);
  }

  lemma NoNewline(s: string)
    requires SpaceFree(s)
    ensures '\n' !in s
  {
  }

  lemma PrintedSplit(entries: seq<Entry>)
    requires AllPrintable(entries)
    ensures Split(Printed(entries), '\n') == PrintedLines(entries) + [""]
  {
    var lines := PrintedLines(entries);
    forall i | 0 <= i < |lines|
      ensures '\n' !in lines[i]
    {
      LineNoNewline(entries[i]);
    }
    SplitFile(lines, "");
    assert Unlines(lines) + "" == Unlines(lines);
    LinesAreSplit(Unlines(lines));
  }

  ghost predicate SeenAt(entries: seq<Entry>, path: string) {
    exists i :: 0 <= i < |entries| && Clean(SeenOf(entries[i])) == Clean(path)
  }

  /** Exactly what isMountPoint answers on any printed table: each line counts as it is seen. */
  lemma ListedIsSeen(entries: seq<Entry>, path: string)
    requires AllPrintable(entries)
    ensures Listed(Printed(entries), path) <==> SeenAt(entries, path)
  {
    var lines := Split(Printed(entries), '\n');
    PrintedSplit(entries);
    assert Fields("") == [] && !Names("", Clean(path));
    forall i | 0 <= i < |entries|
      ensures Names(lines[i], Clean(path)) <==> Clean(SeenOf(entries[i])) == Clean(path)
    {
      FifthField(entries[i]);
    }
  }

  // ---------------------------------------------------------------- when the answers are right

  predicate NoBareSpace(s: string) {
    forall i :: 0 <= i < |s| ==> !BareSpace(s[i])
  }

  lemma {:induction false} SeenWhole(path: string)
    ensures NoBareSpace(Seen(path)) && (Seen(path) == path <==> NoBareSpace(path))
  {
    if path != "" && !BareSpace(path[0]) {
      SeenWhole(path[1..]);
      assert path == [path[0]] + path[1..];
      if Seen(path) == path {
        assert Seen(path[1..]) == Seen(path)[1..] == path[1..];
        assert forall i :: 0 < i < |path| ==> path[i] == path[1..][i - 1];
      }
    }
  }

  lemma {:induction false} UnescapeNoBareSpace(s: string)
    requires SpaceFree(s)
    ensures NoBareSpace(Unescape(s))
    decreases |s|
  {
    if s != "" {
      var n := if "\\040" <= s || "\\011" <= s || "\\012" <= s || "\\134" <= s then 4 else 1;
      UnescapeNoBareSpace(s[n..]);
      assert Unescape(s)[1..] == Unescape(s[n..]) && !BareSpace(Unescape(s)[0]);
      assert forall i :: 0 < i < |Unescape(s)| ==> Unescape(s)[i] == Unescape(s)[1..][i - 1];
    }
  }

  /** Nothing the daemon sees holds white space that is printed as it is. */
  lemma SeenOfNoBareSpace(e: Entry)
    ensures NoBareSpace(Clean(SeenOf(e)))
  {
    var seen := SeenOf(e);
    if Shifted(e) {
      FieldsAreFields(Escape(e.root));
      UnescapeNoBareSpace(Fields(Escape(e.root))[1]);
    } else {
      SeenWhole(e.path);
    }
    var cs := (set i | 0 <= i < |seen| :: seen[i]) + {'/', '.'};
    CleanWithin(seen, cs);
    assert forall c :: c in cs ==> !BareSpace(c);
  }

  /** A root without such white space is one field. */
  lemma UnshiftedRoot(e: Entry)
    requires Rooted(e.root) && NoBareSpace(e.root)
    ensures !Shifted(e)
  {
    SeenWhole(e.root);
    EscapeSeen(e.root);
    assert Escape(e.root)[0] == '/';
    assert Escape(e.root) + "" == Escape(e.root);
    FieldThen(Escape(e.root), "");
  }

  ghost predicate Mounted(entries: seq<Entry>, path: string) {
    exists i :: 0 <= i < |entries| && Clean(entries[i].path) == Clean(path)
  }

  ghost predicate AnswersRightly(entries: seq<Entry>) {
    forall path :: Listed(Printed(entries), path) <==> Mounted(entries, path)
  }

  /** If a root falls apart, what is taken for its mount point is one, and its own mount point is seen elsewhere. */
  ghost predicate ShiftsHarmless(entries: seq<Entry>) {
    forall i :: 0 <= i < |entries| && Shifted(entries[i]) ==>
      Mounted(entries, SeenOf(entries[i])) && SeenAt(entries, entries[i].path)
  }

  ghost predicate PathsPlain(entries: seq<Entry>) {
    forall i :: 0 <= i < |entries| ==> NoBareSpace(entries[i].path)
  }

  lemma RightIfHarmless(entries: seq<Entry>, path: string)
    requires AllPrintable(entries) && PathsPlain(entries) && ShiftsHarmless(entries)
    ensures Listed(Printed(entries), path) <==> Mounted(entries, path)
  {
    ListedIsSeen(entries, path);
    forall i | 0 <= i < |entries| && !Shifted(entries[i])
      ensures SeenOf(entries[i]) == entries[i].path
    {
      SeenWhole(entries[i].path);
    }
    if i :| 0 <= i < |entries| && Clean(SeenOf(entries[i])) == Clean(path) && Shifted(entries[i]) {
      var j :| 0 <= j < |entries| && Clean(entries[j].path) == Clean(SeenOf(entries[i]));
      assert Clean(entries[j].path) == Clean(path);
    }
    if i :| 0 <= i < |entries| && Clean(entries[i].path) == Clean(path) && Shifted(entries[i]) {
      var j :| 0 <= j < |entries| && Clean(SeenOf(entries[j])) == Clean(entries[i].path);
      assert Clean(SeenOf(entries[j])) == Clean(path);
    }
  }

  lemma RightImplies(entries: seq<Entry>, i: nat)
    requires AllPrintable(entries) && AnswersRightly(entries) && i < |entries|
    requires Clean(entries[i].path) == entries[i].path
    ensures NoBareSpace(entries[i].path)
    ensures Mounted(entries, SeenOf(entries[i])) && SeenAt(entries, entries[i].path)
  {
    var path, seen := entries[i].path, SeenOf(entries[i]);
    ListedIsSeen(entries, path);
    ListedIsSeen(entries, seen);
    assert Mounted(entries, path);
    assert Listed(Printed(entries), path);
    var j :| 0 <= j < |entries| && Clean(SeenOf(entries[j])) == Clean(path);
    SeenOfNoBareSpace(entries[j]);
    assert SeenAt(entries, seen);
    assert Listed(Printed(entries), seen);
  }

  /**
   * For every table of clean mount points: all answers are right if and only if no mount point holds white
   * space that is printed as it is, and no root does so that it matters.
   */
  lemma AnswersRightlyIff(entries: seq<Entry>)
    requires AllPrintable(entries) && forall i :: 0 <= i < |entries| ==> Clean(entries[i].path) == entries[i].path
    ensures AnswersRightly(entries) <==> PathsPlain(entries) && ShiftsHarmless(entries)
  {
    if AnswersRightly(entries) {
      forall i | 0 <= i < |entries|
        ensures NoBareSpace(entries[i].path)
        ensures Mounted(entries, SeenOf(entries[i])) && SeenAt(entries, entries[i].path)
      {
        RightImplies(entries, i);
      }
    }
    if PathsPlain(entries) && ShiftsHarmless(entries) {
      forall path
        ensures Listed(Printed(entries), path) <==> Mounted(entries, path)
      {
        RightIfHarmless(entries, path);
      }
    }
  }

  /** If no root falls apart, the white space of the mount points alone decides. */
  lemma AnswersRightlyByPaths(entries: seq<Entry>)
    requires AllPrintable(entries)
    requires forall i :: 0 <= i < |entries| ==> Clean(entries[i].path) == entries[i].path && !Shifted(entries[i])
    ensures AnswersRightly(entries) <==> PathsPlain(entries)
  {
    AnswersRightlyIff(entries);
  }

  /** For mount points and roots without such white space the answer is right, clean or not. */
  lemma IsMountPointCorrect(entries: seq<Entry>, path: string)
    requires AllPrintable(entries) && PathsPlain(entries)
    requires forall i :: 0 <= i < |entries| ==> NoBareSpace(entries[i].root)
    ensures Listed(Printed(entries), path) <==> Mounted(entries, path)
  {
    forall i | 0 <= i < |entries|
      ensures !Shifted(entries[i])
    {
      UnshiftedRoot(entries[i]);
    }
    RightIfHarmless(entries, path);
  }

  /** If the printed root falls apart, its second field looks like a mount point. */
  lemma ShiftMisleads(e: Entry, first: string, second: string)
    requires Printable(e) && Fields(Escape(e.root)) == [first, second] && '\\' !in second
    requires Clean(second) != Clean(e.path)
    ensures Listed(Printed([e]), second) && !Mounted([e], second)
  {
    ShortUnescape(second);
    ListedIsSeen([e], second);
    assert Clean(SeenOf([e][0])) == Clean(second);
  }

  lemma TwoFields(first: string, c: char, second: string)
    requires Field(first) && IsSpace(c) && Field(second)
    ensures Fields(first + ([c] + second)) == [first, second]
  {
    var gap := [c] + second;
    assert gap[1..] == second && second + "" == second;
    FieldThen(first, gap);
    FieldThen(second, "");
  }

  /** A bind mount of a directory with a no-break space in its name. */
  lemma ShiftedRootMisleads(e: Entry)
    requires Printable(e) && e.root == "/x" + (['\U{A0}'] + "/mnt") && e.path == "/data"
    ensures Listed(Printed([e]), "/mnt") && !Mounted([e], "/mnt")
  {
    ShortClean();
    ShortFields();
    SpaceMisleads(e, "/x", '\U{A0}', "/mnt");
  }

  lemma ShortFields()
    ensures Field("/x") && Field("/mnt") && '\\' !in "/x" && '\\' !in "/mnt" && BareSpace('\U{A0}')
  {
  }

  lemma SpaceMisleads(e: Entry, first: string, c: char, second: string)
    requires Printable(e) && Field(first) && BareSpace(c) && Field(second) && '\\' !in first && '\\' !in second
    requires e.root == first + ([c] + second) && Clean(second) != Clean(e.path)
    ensures Listed(Printed([e]), second) && !Mounted([e], second)
  {
    ShortEscape(e.root);
    TwoFields(first, c, second);
    ShiftMisleads(e, first, second);
  }

  lemma {:induction false} ShortEscape(s: string)
    requires forall i :: 0 <= i < |s| ==> !Escaped(s[i])
    ensures Escape(s) == s
  {
    if s != "" {
      ShortEscape(s[1..]);
    }
  }

  lemma {:induction false} ShortUnescape(s: string)
    requires '\\' !in s
    ensures Unescape(s) == s
    decreases |s|
  {
    if s != "" {
      assert s[0] != '\\';
      ShortUnescape(s[1..]);
    }
  }

  lemma ShortClean()
    ensures Clean("/mnt") != Clean("/data")
  {
    ShortPath("mnt");
    ShortPath("data");
    assert "/mnt"[1] != "/data"[1];
  }

  lemma ShortPath(name: string)
    requires name != "" && name != "." && name != ".." && '/' !in name
    ensures Clean("/" + name) == "/" + name
  {
    var stack := [name];
    SplitRooted(stack);
  }
}
