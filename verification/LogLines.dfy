/** Cutting a byte stream into lines, and why the way it was cut into writes does not matter. */
module LogLines {
  import opened Text

  datatype Stream = Stdout | Stderr

  /** All lines of a finished stream: a last line without a newline counts unless it is empty. */
  function AllLines(s: string): seq<string> {
    Lines(s) + Flushed(Rest(s))
  }

  function Flushed(buf: string): seq<string> {
    if buf == "" then [] else [buf]
  }

  // ---------------------------------------------------------------- two streams, cut into writes

  datatype Chunk = Chunk(stream: Stream, data: string)

  /** The buffers of both line writers and the lines written so far. */
  datatype Session = Session(out: string, err: string, lines: seq<(Stream, string)>)

  function Buffer(s: Session, stream: Stream): string {
    if stream.Stdout? then s.out else s.err
  }

  function Tagged(stream: Stream, lines: seq<string>): (r: seq<(Stream, string)>)
    ensures |r| == |lines| && forall i :: 0 <= i < |r| ==> r[i] == (stream, lines[i])
  {
    seq(|lines|, i requires 0 <= i < |lines| => (stream, lines[i]))
  }

  /** One Write call. */
  function Feed(s: Session, chunk: Chunk): Session {
    var total := Buffer(s, chunk.stream) + chunk.data;
    var lines := s.lines + Tagged(chunk.stream, Lines(total));
    if chunk.stream.Stdout? then Session(Rest(total), s.err, lines) else Session(s.out, Rest(total), lines)
  }

  function FeedAll(s: Session, chunks: seq<Chunk>): Session
    decreases |chunks|
  {
    if chunks == [] then s else FeedAll(Feed(s, chunks[0]), chunks[1..])
  }

  /** Close: both buffers are flushed. */
  function Finish(s: Session): seq<(Stream, string)> {
    s.lines + Tagged(Stdout, Flushed(s.out)) + Tagged(Stderr, Flushed(s.err))
  }

  const START := Session("", "", [])

  /** Everything written to one stream. */
  function Data(chunks: seq<Chunk>, stream: Stream): string {
    if chunks == [] then ""
    else (if chunks[0].stream == stream then chunks[0].data else "") + Data(chunks[1..], stream)
  }

  /** The lines of one stream, in order. */
  function Of(lines: seq<(Stream, string)>, stream: Stream): seq<string> {
    if lines == [] then []
    else (if lines[0].0 == stream then [lines[0].1] else []) + Of(lines[1..], stream)
  }

  lemma {:induction false} OfConcat(a: seq<(Stream, string)>, b: seq<(Stream, string)>, stream: Stream)
    ensures Of(a + b, stream) == Of(a, stream) + Of(b, stream)
  {
    if a == [] {
      assert a + b == b;
    } else {
      assert (a + b)[1..] == a[1..] + b;
      OfConcat(a[1..], b, stream);
    }
  }

  lemma {:induction false} OfTagged(tag: Stream, lines: seq<string>, stream: Stream)
    ensures Of(Tagged(tag, lines), stream) == if tag == stream then lines else []
  {
    if lines != [] {
      OfTagged(tag, lines[1..], stream);
      assert Tagged(tag, lines)[1..] == Tagged(tag, lines[1..]);
    }
  }

  lemma FeedStep(s: Session, chunk: Chunk, stream: Stream)
    ensures var s' := Feed(s, chunk);
      var total := Buffer(s, stream) + chunk.data;
      if chunk.stream == stream then
        Of(s'.lines, stream) == Of(s.lines, stream) + Lines(total) && Buffer(s', stream) == Rest(total)
      else
        Of(s'.lines, stream) == Of(s.lines, stream) && Buffer(s', stream) == Buffer(s, stream)
  {
    var lines := Lines(Buffer(s, chunk.stream) + chunk.data);
    OfConcat(s.lines, Tagged(chunk.stream, lines), stream);
    OfTagged(chunk.stream, lines, stream);
  }

  /** The lines and the buffer that a stream has after `total` in all. */
  predicate Shows(s: Session, stream: Stream, before: seq<string>, total: string) {
    Of(s.lines, stream) == before + Lines(total) && Buffer(s, stream) == Rest(total)
  }

  lemma FeedShows(s: Session, chunk: Chunk, stream: Stream, before: seq<string>, total: string)
    requires Shows(s, stream, before, total)
    ensures Shows(Feed(s, chunk), stream, before, total + if chunk.stream == stream then chunk.data else "")
  {
    FeedStep(s, chunk, stream);
    if chunk.stream == stream {
      LinesConcat(total, chunk.data);
      Assoc(before, Lines(total), Lines(Rest(total) + chunk.data));
    } else {
      assert total + "" == total;
    }
  }

  lemma {:induction false} FeedAllShows(s: Session, chunks: seq<Chunk>, stream: Stream, before: seq<string>,
                                        total: string)
    requires Shows(s, stream, before, total)
    ensures Shows(FeedAll(s, chunks), stream, before, total + Data(chunks, stream))
    decreases |chunks|
  {
    if chunks == [] {
      assert total + Data(chunks, stream) == total;
    } else {
      var data := if chunks[0].stream == stream then chunks[0].data else "";
      FeedShows(s, chunks[0], stream, before, total);
      FeedAllShows(Feed(s, chunks[0]), chunks[1..], stream, before, total + data);
      Assoc(total, data, Data(chunks[1..], stream));
    }
  }

  lemma FinishLines(s: Session, stream: Stream)
    ensures Of(Finish(s), stream) == Of(s.lines, stream) + Flushed(Buffer(s, stream))
  {
    var out, err := Tagged(Stdout, Flushed(s.out)), Tagged(Stderr, Flushed(s.err));
    OfConcat(s.lines + out, err, stream);
    OfConcat(s.lines, out, stream);
    OfTagged(Stdout, Flushed(s.out), stream);
    OfTagged(Stderr, Flushed(s.err), stream);
  }

  /** Whatever the writes and their interleaving, each stream's lines are those of its whole text. */
  lemma ChunkingIndependence(chunks: seq<Chunk>, stream: Stream)
    ensures Of(Finish(FeedAll(START, chunks)), stream) == AllLines(Data(chunks, stream))
  {
    assert [] + Lines("") == [];
    FeedAllShows(START, chunks, stream, [], "");
    assert "" + Data(chunks, stream) == Data(chunks, stream);
    FinishLines(FeedAll(START, chunks), stream);
  }
}
