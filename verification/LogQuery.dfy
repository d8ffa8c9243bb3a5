/** Reading a mount's log back. */
module LogQuery {
  import opened Options
  import opened Text
  import opened LogStore

  datatype ReadFile = Missing | Unreadable | Contents(data: string)

  /** `since` None is the zero time. */
  datatype QueryOptions = QueryOptions(since: Option<int>, tail: int, limit: int)

  /** strings.TrimRight(s, "\n"). */
  function TrimRight(s: string): string {
    if s != "" && s[|s| - 1] == '\n' then TrimRight(s[..|s| - 1]) else s
  }

  /** The record a line stands for, unless it is empty, corrupt or not after `since`. */
  function Selected(decode: string -> Option<Record>, since: Option<int>, line: string): seq<Record> {
    if line == "" then []
    else match decode(line)
      case None => []
      case Some(record) => if since.Some? && record.time <= since.value then [] else [record]
  }

  function SelectAll(decode: string -> Option<Record>, since: Option<int>, lines: seq<string>): seq<Record> {
    if lines == [] then [] else Selected(decode, since, lines[0]) + SelectAll(decode, since, lines[1..])
  }

  lemma {:induction false} SelectConcat(decode: string -> Option<Record>, since: Option<int>, a: seq<string>,
                                        b: seq<string>)
    ensures SelectAll(decode, since, a + b) == SelectAll(decode, since, a) + SelectAll(decode, since, b)
  {
    if a == [] {
      assert a + b == b;
    } else {
      assert (a + b)[1..] == a[1..] + b;
      SelectConcat(decode, since, a[1..], b);
      Assoc(Selected(decode, since, a[0]), SelectAll(decode, since, a[1..]), SelectAll(decode, since, b));
    }
  }

  /** Where the answer begins and ends among `n` selected records. */
  function From(n: nat, tail: int): (lo: nat)
    ensures lo <= n && (tail <= 0 ==> lo == 0) && (tail > 0 ==> n - lo == if tail < n then tail else n)
  {
    if tail > 0 && n > tail then n - tail else 0
  }

  function To(n: nat, tail: int, limit: int): (hi: nat)
    ensures var lo := From(n, tail);
      lo <= hi <= n && (limit <= 0 ==> hi == n) && (limit > 0 ==> hi - lo == if limit < n - lo then limit else n - lo)
  {
    if limit > 0 && n - From(n, tail) > limit then From(n, tail) + limit else n
  }

  /** The last `tail` records, and of these the first `limit`; a bound that is not positive does not apply. */
  function Window(all: seq<Record>, tail: int, limit: int): seq<Record> {
    all[From(|all|, tail)..To(|all|, tail, limit)]
  }

  lemma WindowOfSuffix(records: seq<Record>, k: nat, tail: int, limit: int)
    requires k <= |records|
    ensures var n := |records| - k;
      Window(records[k..], tail, limit) == records[k + From(n, tail)..k + To(n, tail, limit)]
  {
  }

  method Query(file: ReadFile, decode: string -> Option<Record>, options: QueryOptions) returns (r: Option<seq<Record>>)
    ensures file.Missing? ==> r == Some([])
    ensures file.Unreadable? ==> r == None
    ensures file.Contents? ==> r == Some(Answer(decode, options, file.data))
  {
    if file.Missing? {
      return Some([]);
    } else if file.Unreadable? {
      return None;
    }
    var lines := Split(TrimRight(file.data), '\n');
    var records: seq<Record> := [];
    for i := 0 to |lines|
      invariant records == SelectAll(decode, options.since, lines[..i])
    {
      SelectConcat(decode, options.since, lines[..i], [lines[i]]);
      SelectOne(decode, options.since, lines[i]);
      assert lines[..i + 1] == lines[..i] + [lines[i]];
      if lines[i] == "" {
        continue;
      }
      var decoded := decode(lines[i]);
      if decoded.None? {
        continue;
      }
      if options.since.Some? && decoded.value.time <= options.since.value {
        continue;
      }
      records := records + [decoded.value];
    }
    assert lines[..|lines|] == lines;
    records := Cut(records, options.tail, options.limit);
    r := Some(records);
  }

  /** The end of Query. */
  method Cut(all: seq<Record>, tail: int, limit: int) returns (records: seq<Record>)
    ensures records == Window(all, tail, limit)
    ensures var lo := if 0 < tail < |all| then |all| - tail else 0;
      && |records| == (if 0 < limit < |all| - lo then limit else |all| - lo)
      && (forall i :: 0 <= i < |records| ==> records[i] == all[lo + i])
  {
    records := all;
    if tail > 0 && |records| > tail {
      records := records[|records| - tail..];
    }
    if limit > 0 && |records| > limit {
      records := records[..limit];
    }
  }

  lemma SelectOne(decode: string -> Option<Record>, since: Option<int>, line: string)
    ensures SelectAll(decode, since, [line]) == Selected(decode, since, line)
  {
    assert [line][1..] == [];
  }

  // ---------------------------------------------------------------- what was written is what is read

  /** The file contents that `records` make, one encoded record per line. */
  function Render(encode: Record -> string, records: seq<Record>): string {
    Unlines(Encoded(encode, records))
  }

  function Encoded(encode: Record -> string, records: seq<Record>): (r: seq<string>)
    ensures |r| == |records| && forall i :: 0 <= i < |r| ==> r[i] == encode(records[i])
  {
    seq(|records|, i requires 0 <= i < |records| => encode(records[i]))
  }

  /** JSON encoding as section 7 of RFC 8259 has it: invertible, never empty, and without raw newlines. */
  ghost predicate Codec(encode: Record -> string, decode: string -> Option<Record>) {
    forall r :: decode(encode(r)) == Some(r) && encode(r) != "" && '\n' !in encode(r)
  }

  predicate Later(r: Record, since: Option<int>) {
    since.None? || r.time > since.value
  }

  function Filter(records: seq<Record>, since: Option<int>): seq<Record> {
    if records == [] then []
    else (if Later(records[0], since) then [records[0]] else []) + Filter(records[1..], since)
  }

  lemma {:induction false} SelectEncoded(encode: Record -> string, decode: string -> Option<Record>, since: Option<int>,
                                         records: seq<Record>)
    requires Codec(encode, decode)
    ensures SelectAll(decode, since, Encoded(encode, records)) == Filter(records, since)
  {
    if records != [] {
      SelectEncoded(encode, decode, since, records[1..]);
      assert Encoded(encode, records)[1..] == Encoded(encode, records[1..]);
      assert decode(encode(records[0])) == Some(records[0]);
    }
  }

  predicate Trimmable(lines: seq<string>) {
    forall i :: 0 <= i < |lines| ==> lines[i] != "" && '\n' !in lines[i]
  }

  /** Unlines without its last newline. */
  lemma {:induction false} DropNewline(lines: seq<string>)
    requires lines != [] && Trimmable(lines)
    ensures Unlines(lines) == Unlines(lines[..|lines| - 1]) + lines[|lines| - 1] + "\n"
  {
    if |lines| > 1 {
      var n := |lines| - 1;
      DropNewline(lines[1..]);
      assert lines[1..][..n - 1] == lines[..n][1..] && lines[1..][n - 1] == lines[n];
      Assoc(lines[0] + "\n", Unlines(lines[..n][1..]), lines[n]);
      Assoc(lines[0] + "\n", Unlines(lines[..n][1..]) + lines[n], "\n");
    } else {
      assert lines[1..] == [] && lines[..0] == [];
      assert "" + lines[0] + "\n" == lines[0] + "\n" + "";
    }
  }

  /** A torn last line: nothing is trimmed. */
  lemma TrimTorn(lines: seq<string>, torn: string)
    requires Trimmable(lines) && '\n' !in torn && torn != ""
    ensures Split(TrimRight(Unlines(lines) + torn), '\n') == lines + [torn]
  {
    var data := Unlines(lines) + torn;
    assert data[|data| - 1] == torn[|torn| - 1];
    SplitTrimmed(lines, torn);
  }

  lemma TrimLast(trimmed: string, last: char)
    requires trimmed != "" && trimmed[|trimmed| - 1] == last && last != '\n'
    ensures TrimRight(trimmed + "\n") == trimmed
  {
    var data := trimmed + "\n";
    assert data[..|data| - 1] == trimmed;
  }

  /** A whole file: its last newline is trimmed. */
  lemma TrimWhole(lines: seq<string>)
    requires Trimmable(lines) && lines != []
    ensures Split(TrimRight(Unlines(lines)), '\n') == lines
  {
    var n := |lines| - 1;
    DropNewline(lines);
    TrimAndSplit(lines[..n], lines[n]);
    assert lines[..n] + [lines[n]] == lines;
  }

  lemma TrimAndSplit(lines: seq<string>, last: string)
    requires Trimmable(lines) && last != "" && '\n' !in last
    ensures Split(TrimRight(Unlines(lines) + last + "\n"), '\n') == lines + [last]
  {
    TrimLast(Unlines(lines) + last, last[|last| - 1]);
    SplitTrimmed(lines, last);
  }

  lemma SplitTrimmed(lines: seq<string>, last: string)
    requires Trimmable(lines) && '\n' !in last
    ensures Split(Unlines(lines) + last, '\n') == lines + [last]
  {
    SplitFile(lines, last);
    LinesAreSplit(Unlines(lines) + last);
  }

  lemma TrimFile(lines: seq<string>, torn: string)
    requires Trimmable(lines) && '\n' !in torn
    ensures Split(TrimRight(Unlines(lines) + torn), '\n')
      == if torn == "" && lines != [] then lines else lines + [torn]
  {
    if torn != "" {
      TrimTorn(lines, torn);
    } else {
      assert Unlines(lines) + "" == Unlines(lines);
      if lines != [] {
        TrimWhole(lines);
      }
    }
  }

  /**
   * A query over what was written, and possibly a torn last line that decodes to nothing, selects
   * exactly the written records later than `since`.
   */
  lemma QueryRoundTrip(encode: Record -> string, decode: string -> Option<Record>, since: Option<int>,
                       records: seq<Record>, torn: string)
    requires Codec(encode, decode) && '\n' !in torn && (torn == "" || decode(torn) == None)
    ensures SelectAll(decode, since, Split(TrimRight(Render(encode, records) + torn), '\n')) == Filter(records, since)
  {
    var lines := Encoded(encode, records);
    TrimFile(lines, torn);
    SelectEncoded(encode, decode, since, records);
    SelectConcat(decode, since, lines, [torn]);
    SelectOne(decode, since, torn);
    assert Filter(records, since) + [] == Filter(records, since);
  }

  lemma {:induction false} FilterAll(records: seq<Record>)
    ensures Filter(records, None) == records
  {
    if records != [] {
      FilterAll(records[1..]);
    }
  }

  ghost predicate InOrder(records: seq<Record>) {
    forall i, j :: 0 <= i < j < |records| ==> records[i].time <= records[j].time
  }

  lemma {:induction false} FilterKeepsAll(records: seq<Record>, since: Option<int>)
    requires forall i :: 0 <= i < |records| ==> Later(records[i], since)
    ensures Filter(records, since) == records
  {
    if records != [] {
      FilterKeepsAll(records[1..], since);
    }
  }

  lemma {:induction false} FilterIsSuffix(records: seq<Record>, since: Option<int>) returns (k: nat)
    requires InOrder(records)
    ensures k <= |records| && Filter(records, since) == records[k..]
    ensures forall i :: 0 <= i < |records| ==> (Later(records[i], since) <==> i >= k)
  {
    if records == [] {
      k := 0;
    } else if Later(records[0], since) {
      assert forall i :: 0 <= i < |records| ==> records[0].time <= records[i].time;
      FilterKeepsAll(records, since);
      k := 0;
    } else {
      var rest := FilterIsSuffix(records[1..], since);
      k := rest + 1;
      assert records[1..][rest..] == records[k..];
      assert [] + records[k..] == records[k..];
      forall i | 0 <= i < |records|
        ensures Later(records[i], since) <==> i >= k
      {
        if i > 0 {
          assert records[i] == records[1..][i - 1];
        }
      }
    }
  }

  /** Of `n` records the first `k` are too old: the answer is the first `limit` of the last `tail` others. */
  predicate Bounds(n: nat, k: nat, options: QueryOptions, lo: nat, hi: nat) {
    && k <= lo <= hi <= n
    && lo == (if 0 < options.tail < n - k then n - options.tail else k)
    && hi == (if 0 < options.limit < n - lo then lo + options.limit else n)
  }

  lemma WindowOfFilter(records: seq<Record>, options: QueryOptions) returns (k: nat, lo: nat, hi: nat)
    requires InOrder(records)
    ensures Bounds(|records|, k, options, lo, hi)
    ensures forall i :: 0 <= i < |records| ==>
      (i < k <==> options.since.Some? && records[i].time <= options.since.value)
    ensures records[lo..hi] == Window(Filter(records, options.since), options.tail, options.limit)
  {
    k := FilterIsSuffix(records, options.since);
    WindowOfSuffix(records, k, options.tail, options.limit);
    var n := |records| - k;
    lo, hi := k + From(n, options.tail), k + To(n, options.tail, options.limit);
    forall i | 0 <= i < |records|
      ensures i < k <==> options.since.Some? && records[i].time <= options.since.value
    {
      assert Later(records[i], options.since) <==> i >= k;
    }
  }

  /** What Query answers for a file with these contents. */
  function Answer(decode: string -> Option<Record>, options: QueryOptions, data: string): seq<Record> {
    Window(SelectAll(decode, options.since, Split(TrimRight(data), '\n')), options.tail, options.limit)
  }

  /**
   * With a clock that does not go back, the answer to any query is a contiguous stretch of the written
   * records: those later than `since`, of them the last `tail`, and of these the first `limit`.
   */
  lemma AnswerIsContiguous(encode: Record -> string, decode: string -> Option<Record>, options: QueryOptions,
                           records: seq<Record>, torn: string) returns (k: nat, lo: nat, hi: nat)
    requires Codec(encode, decode) && '\n' !in torn && (torn == "" || decode(torn) == None) && InOrder(records)
    ensures Bounds(|records|, k, options, lo, hi)
    ensures forall i :: 0 <= i < |records| ==>
      (i < k <==> options.since.Some? && records[i].time <= options.since.value)
    ensures Answer(decode, options, Render(encode, records) + torn) == records[lo..hi]
  {
    QueryRoundTrip(encode, decode, options.since, records, torn);
    k, lo, hi := WindowOfFilter(records, options);
  }

  /** A query without bounds returns every record that was written, whatever the clock did. */
  lemma UnrestrictedQuery(encode: Record -> string, decode: string -> Option<Record>, records: seq<Record>,
                          torn: string)
    requires Codec(encode, decode) && '\n' !in torn && (torn == "" || decode(torn) == None)
    ensures Answer(decode, QueryOptions(None, 0, 0), Render(encode, records) + torn) == records
  {
    QueryRoundTrip(encode, decode, None, records, torn);
    FilterAll(records);
  }
}
