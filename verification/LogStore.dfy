/** A mount's log: two line writers appending redacted, timestamped records to one file. */
module LogStore {
  import opened Text
  import opened Redaction
  import opened LogLines

  datatype Record = Record(time: int, stream: Stream, message: string)

  /** The records of `lines`, redacted, and stamped by the clock from its `n`-th reading on. */
  function Records(clock: nat -> int, n: nat, secrets: seq<string>, stream: Stream, lines: seq<string>)
    : (r: seq<Record>)
    requires NonEmpty(secrets)
    ensures |r| == |lines|
    ensures forall i :: 0 <= i < |r| ==> r[i] == Record(clock(n + i), stream, Redact(lines[i], secrets))
  {
    seq(|lines|, i requires 0 <= i < |lines| => Record(clock(n + i), stream, Redact(lines[i], secrets)))
  }

  lemma RecordsOneMore(clock: nat -> int, file: seq<Record>, secrets: seq<string>, stream: Stream, lines: seq<string>,
                       line: string)
    requires NonEmpty(secrets)
    ensures var n := |file|;
      file + Records(clock, n, secrets, stream, lines + [line])
      == file + Records(clock, n, secrets, stream, lines)
         + [Record(clock(n + |lines|), stream, Redact(line, secrets))]
  {
    var n := |file|;
    var last := [Record(clock(n + |lines|), stream, Redact(line, secrets))];
    assert Records(clock, n, secrets, stream, lines + [line]) == Records(clock, n, secrets, stream, lines) + last;
    Assoc(file, Records(clock, n, secrets, stream, lines), last);
  }

  /** `file` has grown from `before` by these lines. */
  predicate Grown(file: seq<Record>, before: seq<Record>, clock: nat -> int, secrets: seq<string>, stream: Stream,
                  lines: seq<string>)
    requires NonEmpty(secrets)
  {
    file == before + Records(clock, |before|, secrets, stream, lines)
  }

  /** The lines `done` and the buffer make up all there is to write. */
  predicate StillToWrite(buf: string, done: seq<string>, total: string) {
    Rest(buf) == Rest(total) && done + Lines(buf) == Lines(total)
  }

  lemma CutLine(buf: string, index: nat, done: seq<string>, total: string)
    requires index == Find(buf, '\n') && StillToWrite(buf, done, total)
    ensures StillToWrite(buf[index + 1..], done + [buf[..index]], total)
  {
    Assoc(done, [buf[..index]], Lines(buf[index + 1..]));
  }

  /** The secrets that are not empty. */
  function Kept(secrets: seq<string>): (r: seq<string>)
    ensures NonEmpty(r)
    ensures forall x :: x in r <==> x in secrets && x != ""
  {
    if secrets == [] then []
    else (if secrets[0] != "" then [secrets[0]] else []) + Kept(secrets[1..])
  }

  class MountLog {
    const clock: nat -> int  // the n-th reading of the clock
    var secrets: seq<string>
    var file: seq<Record>    // each written as one encoded line

    /** Open: what the file already holds is kept. */
    constructor (history: seq<Record>, secrets: seq<string>, clock: nat -> int)
      ensures this.secrets == Kept(secrets) && this.clock == clock && file == history
    {
      this.clock := clock;
      var kept: seq<string> := [];
      for i := 0 to |secrets|
        invariant kept + Kept(secrets[i..]) == Kept(secrets)
      {
        assert secrets[i..][1..] == secrets[i + 1..];
        if secrets[i] != "" {
          Assoc(kept, [secrets[i]], Kept(secrets[i + 1..]));
          kept := kept + [secrets[i]];
        } else {
          assert [] + Kept(secrets[i + 1..]) == Kept(secrets[i + 1..]);
        }
      }
      this.secrets, file := kept, history;
    }

    method WriteLine(stream: Stream, line: string)
      requires NonEmpty(secrets)
      modifies this
      ensures secrets == old(secrets)
      ensures file == old(file) + [Record(clock(|old(file)|), stream, Redact(line, secrets))]
    {
      var redacted := line;
      for i := 0 to |secrets|
        invariant unchanged(this)
        invariant Redact(redacted, secrets[i..]) == Redact(line, secrets)
      {
        assert secrets[i..][1..] == secrets[i + 1..];
        redacted := ReplaceAll(redacted, secrets[i]);
      }
      file := file + [Record(clock(|file|), stream, redacted)];
    }
  }

  /** The log has grown by these lines of this stream. */
  twostate predicate Appended(log: MountLog, stream: Stream, lines: seq<string>)
    requires NonEmpty(old(log.secrets))
    reads log
  {
    && log.secrets == old(log.secrets)
    && log.file == old(log.file) + Records(log.clock, |old(log.file)|, log.secrets, stream, lines)
  }

  class LineWriter {
    const log: MountLog
    const stream: Stream
    var buf: string

    constructor (log: MountLog, stream: Stream)
      ensures this.log == log && this.stream == stream && buf == ""
    {
      this.log, this.stream, buf := log, stream, "";
    }

    method Write(data: string) returns (n: nat)
      requires NonEmpty(log.secrets)
      modifies this, log
      ensures n == |data| && buf == Rest(old(buf) + data)
      ensures Appended(log, stream, Lines(old(buf) + data))
    {
      ghost var file, total := log.file, buf + data;
      ghost var done: seq<string> := [];
      buf := buf + data;
      var index := Find(buf, '\n');
      while index >= 0
        invariant index == Find(buf, '\n') && StillToWrite(buf, done, total)
        invariant log.secrets == old(log.secrets) && Grown(log.file, file, log.clock, log.secrets, stream, done)
        decreases |buf|
      {
        var line := buf[..index];
        CutLine(buf, index, done, total);
        RecordsOneMore(log.clock, file, log.secrets, stream, done, line);
        buf := buf[index + 1..];
        log.WriteLine(stream, line);
        done := done + [line];
        index := Find(buf, '\n');
      }
      assert done + [] == done;
      n := |data|;
    }

    method Flush()
      requires NonEmpty(log.secrets)
      modifies this, log
      ensures buf == "" && Appended(log, stream, Flushed(old(buf)))
    {
      if buf != "" {
        log.WriteLine(stream, buf);
        buf := "";
      }
    }
  }

  /** Close: both partial lines are written, stdout's first. */
  method Close(stdout: LineWriter, stderr: LineWriter)
    requires stdout.log == stderr.log && stdout != stderr && NonEmpty(stdout.log.secrets)
    requires stdout.stream == Stdout && stderr.stream == Stderr
    modifies stdout, stderr, stdout.log
    ensures stdout.buf == "" && stderr.buf == "" && stdout.log.secrets == old(stdout.log.secrets)
    ensures stdout.log.file == old(stdout.log.file)
      + Logged(stdout.log.clock, |old(stdout.log.file)|, stdout.log.secrets,
               Tagged(Stdout, Flushed(old(stdout.buf))) + Tagged(Stderr, Flushed(old(stderr.buf))))
  {
    stdout.Flush();
    stderr.Flush();
  }

  /** The records of tagged lines, redacted and stamped from the `n`-th reading of the clock on. */
  function Logged(clock: nat -> int, n: nat, secrets: seq<string>, lines: seq<(Stream, string)>): (r: seq<Record>)
    requires NonEmpty(secrets)
    ensures |r| == |lines|
    ensures forall i :: 0 <= i < |r| ==> r[i] == Record(clock(n + i), lines[i].0, Redact(lines[i].1, secrets))
  {
    seq(|lines|, i requires 0 <= i < |lines| => Record(clock(n + i), lines[i].0, Redact(lines[i].1, secrets)))
  }

  lemma LoggedAppend(clock: nat -> int, n: nat, secrets: seq<string>, a: seq<(Stream, string)>,
                     b: seq<(Stream, string)>)
    requires NonEmpty(secrets)
    ensures Logged(clock, n, secrets, a + b) == Logged(clock, n, secrets, a) + Logged(clock, n + |a|, secrets, b)
  {
  }

  lemma LoggedTagged(clock: nat -> int, n: nat, secrets: seq<string>, stream: Stream, lines: seq<string>)
    requires NonEmpty(secrets)
    ensures Logged(clock, n, secrets, Tagged(stream, lines)) == Records(clock, n, secrets, stream, lines)
  {
  }

  /** The file is what it held before and the records of these lines. */
  predicate InStep(file: seq<Record>, history: seq<Record>, clock: nat -> int, secrets: seq<string>,
                   lines: seq<(Stream, string)>)
    requires NonEmpty(secrets)
  {
    file == history + Logged(clock, |history|, secrets, lines)
  }

  lemma InStepAppend(file: seq<Record>, history: seq<Record>, clock: nat -> int, secrets: seq<string>,
                     lines: seq<(Stream, string)>, more: seq<(Stream, string)>)
    requires NonEmpty(secrets) && InStep(file, history, clock, secrets, lines)
    ensures InStep(file + Logged(clock, |file|, secrets, more), history, clock, secrets, lines + more)
  {
    var n := |history|;
    LoggedAppend(clock, n, secrets, lines, more);
    Assoc(history, Logged(clock, n, secrets, lines), Logged(clock, |file|, secrets, more));
  }

  /** One Write by the writer of `stream` keeps its log in step with the session. */
  method Deliver(writer: LineWriter, data: string, ghost history: seq<Record>, ghost s: Session)
    requires NonEmpty(writer.log.secrets) && writer.buf == Buffer(s, writer.stream)
    requires InStep(writer.log.file, history, writer.log.clock, writer.log.secrets, s.lines)
    modifies writer, writer.log
    ensures writer.log.secrets == old(writer.log.secrets)
    ensures writer.buf == Buffer(Feed(s, Chunk(writer.stream, data)), writer.stream)
    ensures InStep(writer.log.file, history, writer.log.clock, writer.log.secrets,
                   Feed(s, Chunk(writer.stream, data)).lines)
  {
    var lines := Lines(writer.buf + data);
    InStepAppend(writer.log.file, history, writer.log.clock, writer.log.secrets, s.lines, Tagged(writer.stream, lines));
    LoggedTagged(writer.log.clock, |writer.log.file|, writer.log.secrets, writer.stream, lines);
    var written := writer.Write(data);
  }

  /** A child's whole output, in whatever pieces its two pipes deliver it, after what earlier children logged. */
  method LogOutput(history: seq<Record>, secrets: seq<string>, clock: nat -> int, chunks: seq<Chunk>)
    returns (file: seq<Record>)
    ensures file == history + Logged(clock, |history|, Kept(secrets), Finish(FeedAll(START, chunks)))
  {
    var log := new MountLog(history, secrets, clock);
    var stdout := new LineWriter(log, Stdout);
    var stderr := new LineWriter(log, Stderr);
    ghost var s := START;
    assert history + Logged(clock, |history|, log.secrets, []) == history;
    for i := 0 to |chunks|
      invariant FeedAll(s, chunks[i..]) == FeedAll(START, chunks)
      invariant stdout.buf == s.out && stderr.buf == s.err && log.secrets == Kept(secrets)
      invariant InStep(log.file, history, clock, log.secrets, s.lines)
    {
      assert chunks[i..][1..] == chunks[i + 1..];
      if chunks[i].stream == Stdout {
        Deliver(stdout, chunks[i].data, history, s);
      } else {
        Deliver(stderr, chunks[i].data, history, s);
      }
      s := Feed(s, chunks[i]);
    }
    ghost var rest := Tagged(Stdout, Flushed(s.out)) + Tagged(Stderr, Flushed(s.err));
    InStepAppend(log.file, history, clock, log.secrets, s.lines, rest);
    Assoc(s.lines, Tagged(Stdout, Flushed(s.out)), Tagged(Stderr, Flushed(s.err)));
    Close(stdout, stderr);
    file := log.file;
  }

  /** No secret is left in any new record of the log, however the output was cut into writes. */
  lemma LogHidesSecrets(secrets: seq<string>, clock: nat -> int, n: nat, chunks: seq<Chunk>, i: nat, k: nat)
    requires NoneOverlaps(Kept(secrets)) && k < |Kept(secrets)|
    requires i < |Finish(FeedAll(START, chunks))|
    ensures !Occurs(Kept(secrets)[k], Logged(clock, n, Kept(secrets), Finish(FeedAll(START, chunks)))[i].message)
  {
    RedactHidesAll(Finish(FeedAll(START, chunks))[i].1, Kept(secrets), k);
  }
}
