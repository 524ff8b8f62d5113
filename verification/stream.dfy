/**
 * `streamResponse`: the generate request's reply is read chunk by chunk; each chunk is
 * split on newlines on its own, white-space-only lines are dropped, and every remaining
 * line is parsed as a record whose non-empty `response` text is appended to
 * `fullResponse`. A line that does not parse is logged and skipped. Reading stops only
 * when the reader reports that the body is done; a record's own `done` flag is never read.
 */
module Stream {
  import opened Wrappers
  import opened Text
  import opened Errors

  /** One parsed line of the reply: its `response` field (absent or text) and its `done` flag. */
  datatype Record = Record(response: Option<string>, done: bool)

  /**
   * `JSON.parse` of a line followed by the read of its `response` field; `None` when
   * either throws (malformed text, or the line `null`).
   */
  type Parser = string -> Option<Record>

  /** `lines.filter(line => line.trim())`: the lines that are not all white space, in order. */
  function NonBlank(lines: seq<string>): seq<string> {
    if lines == [] then []
    else (if Trim(lines[0]) != "" then [lines[0]] else []) + NonBlank(lines[1..])
  }

  /** The filter keeps only lines of the input, and only the non-blank ones. */
  lemma {:induction false} NonBlankKeeps(lines: seq<string>)
    ensures forall l :: l in NonBlank(lines) ==> l in lines && !IsBlank(l)
  {
    if lines != [] {
      NonBlankKeeps(lines[1..]);
    }
  }

  /** A single line passes the filter exactly when it is not blank. */
  lemma NonBlankOne(line: string)
    ensures NonBlank([line]) == if IsBlank(line) then [] else [line]
  {
    assert [line][1..] == [];
  }

  /** `chunk.split('\n').filter(line => line.trim())`: the lines taken from one chunk. */
  function ChunkLines(chunk: string): seq<string> {
    NonBlank(Split(chunk, '\n'))
  }

  /** Every line taken from a chunk is free of newlines and not blank. */
  lemma ChunkLinesAreLines(chunk: string)
    ensures forall i :: 0 <= i < |ChunkLines(chunk)| ==> '\n' !in ChunkLines(chunk)[i] && !IsBlank(ChunkLines(chunk)[i])
  {
    var parts := Split(chunk, '\n');
    NonBlankKeeps(parts);
    forall i | 0 <= i < |ChunkLines(chunk)|
      ensures '\n' !in ChunkLines(chunk)[i]
    {
      assert ChunkLines(chunk)[i] in parts;
    }
  }

  /** The lines of a whole stream: each chunk's lines, chunk after chunk. */
  function ChunkedLines(chunks: seq<string>): seq<string> {
    if chunks == [] then []
    else ChunkedLines(chunks[..|chunks| - 1]) + ChunkLines(chunks[|chunks| - 1])
  }

  /**
   * What reading has produced so far: `fullResponse`, every text the assistant message
   * has shown (one per appended fragment), and the lines logged as unparsable.
   */
  datatype Progress = Progress(text: string, shown: seq<string>, rejected: seq<string>)

  const Start := Progress("", [], [])

  /** The text a line contributes: its `response`, when the line parses and that field is truthy. */
  function FragmentOf(line: string, parse: Parser): seq<string> {
    match parse(line)
    case Some(record) =>
      if record.response.Some? && record.response.value != "" then [record.response.value] else []
    case None => []
  }

  /** The body of the `for` loop over one line, with its `try`/`catch`. */
  function Absorb(p: Progress, line: string, parse: Parser): Progress {
    if parse(line).None? then p.(rejected := p.rejected + [line])
    else if FragmentOf(line, parse) == [] then p
    else
      var text := p.text + FragmentOf(line, parse)[0];
      p.(text := text, shown := p.shown + [text])
  }

  /** The `for` loop over the lines of one chunk. */
  function AbsorbLines(p: Progress, lines: seq<string>, parse: Parser): Progress {
    if lines == [] then p
    else Absorb(AbsorbLines(p, lines[..|lines| - 1], parse), lines[|lines| - 1], parse)
  }

  /** The `while` loop over the chunks of the body, each split on its own. */
  function AbsorbChunks(p: Progress, chunks: seq<string>, parse: Parser): Progress {
    if chunks == [] then p
    else AbsorbLines(AbsorbChunks(p, chunks[..|chunks| - 1], parse), ChunkLines(chunks[|chunks| - 1]), parse)
  }

  /** The fragments of some lines, in line order. */
  function Fragments(lines: seq<string>, parse: Parser): seq<string> {
    if lines == [] then []
    else Fragments(lines[..|lines| - 1], parse) + FragmentOf(lines[|lines| - 1], parse)
  }

  /** The lines that fail to parse, in line order. */
  function Malformed(lines: seq<string>, parse: Parser): seq<string> {
    if lines == [] then []
    else Malformed(lines[..|lines| - 1], parse) + (if parse(lines[|lines| - 1]).None? then [lines[|lines| - 1]] else [])
  }

  /** The text `fullResponse += fragment` builds from "" over `texts`, in order. */
  function Concat(texts: seq<string>): string {
    if texts == [] then "" else Concat(texts[..|texts| - 1]) + texts[|texts| - 1]
  }

  /** The successive texts shown while `fragments` are appended one by one to `base`. */
  function Running(base: string, fragments: seq<string>): seq<string> {
    if fragments == [] then []
    else Running(base, fragments[..|fragments| - 1]) + [base + Concat(fragments)]
  }

  lemma Associative<T>(a: seq<T>, b: seq<T>, c: seq<T>)
    ensures a + b + c == a + (b + c)
  {
  }

  /** Appending a single fragment to "" gives that fragment. */
  lemma ConcatOne(x: string)
    ensures Concat([x]) == x
  {
    assert [x][..0] == [];
  }

  /** Joining `xs + ys` is joining `xs` and then `ys`. */
  lemma {:induction false} ConcatAppend(xs: seq<string>, ys: seq<string>)
    ensures Concat(xs + ys) == Concat(xs) + Concat(ys)
    decreases |ys|
  {
    if ys == [] {
      assert xs + ys == xs;
    } else {
      var zs := xs + ys;
      assert zs[..|zs| - 1] == xs + ys[..|ys| - 1];
      ConcatAppend(xs, ys[..|ys| - 1]);
      Associative(Concat(xs), Concat(ys[..|ys| - 1]), ys[|ys| - 1]);
    }
  }

  /** The texts shown while appending `xs + ys`: those for `xs`, then those for `ys` on top of them. */
  lemma {:induction false} RunningAppend(base: string, xs: seq<string>, ys: seq<string>)
    ensures Running(base, xs + ys) == Running(base, xs) + Running(base + Concat(xs), ys)
    decreases |ys|
  {
    if ys == [] {
      assert xs + ys == xs;
    } else {
      var zs := xs + ys;
      assert zs[..|zs| - 1] == xs + ys[..|ys| - 1];
      RunningAppend(base, xs, ys[..|ys| - 1]);
      ConcatAppend(xs, ys);
      Associative(base, Concat(xs), Concat(ys));
      Associative(Running(base, xs), Running(base + Concat(xs), ys[..|ys| - 1]), [base + Concat(zs)]);
    }
  }

  /** One line's effect, in terms of its fragment (none or one). */
  lemma AbsorbEffect(q: Progress, line: string, parse: Parser)
    ensures Absorb(q, line, parse)
         == Progress(q.text + Concat(FragmentOf(line, parse)),
                     q.shown + Running(q.text, FragmentOf(line, parse)),
                     q.rejected + (if parse(line).None? then [line] else []))
  {
    var f := FragmentOf(line, parse);
    if f != [] {
      assert f == [f[0]];
      ConcatOne(f[0]);
      assert f[..0] == [];
    }
  }

  /** The text, shown texts and log that reading `lines` from `p` leaves. */
  function Effect(p: Progress, lines: seq<string>, parse: Parser): Progress {
    Progress(p.text + Concat(Fragments(lines, parse)),
             p.shown + Running(p.text, Fragments(lines, parse)),
             p.rejected + Malformed(lines, parse))
  }

  /** One more line read extends the closed form by that line's fragment and log entry. */
  lemma EffectStep(p: Progress, init: seq<string>, last: string, parse: Parser)
    ensures Absorb(Effect(p, init, parse), last, parse) == Effect(p, init + [last], parse)
  {
    var lines := init + [last];
    assert lines[..|lines| - 1] == init;
    var fs, f := Fragments(init, parse), FragmentOf(last, parse);
    assert Fragments(lines, parse) == fs + f;
    var bad := if parse(last).None? then [last] else [];
    assert Malformed(lines, parse) == Malformed(init, parse) + bad;
    ConcatAppend(fs, f);
    RunningAppend(p.text, fs, f);
    var q := Effect(p, init, parse);
    AbsorbEffect(q, last, parse);
    Associative(p.text, Concat(fs), Concat(f));
    Associative(p.shown, Running(p.text, fs), Running(q.text, f));
    Associative(p.rejected, Malformed(init, parse), bad);
  }

  /**
   * Reading some lines appends exactly their fragments to the text, in order, shows one
   * growing text per fragment, and logs exactly the unparsable lines.
   */
  lemma {:induction false} AbsorbLinesEffect(p: Progress, lines: seq<string>, parse: Parser)
    ensures AbsorbLines(p, lines, parse) == Effect(p, lines, parse)
  {
    if lines == [] {
      assert Effect(p, lines, parse) == p;
    } else {
      var init, last := lines[..|lines| - 1], lines[|lines| - 1];
      assert init + [last] == lines;
      calc {
        AbsorbLines(p, lines, parse);
        Absorb(AbsorbLines(p, init, parse), last, parse);
        { AbsorbLinesEffect(p, init, parse); }
        Absorb(Effect(p, init, parse), last, parse);
        { EffectStep(p, init, last, parse); }
        Effect(p, lines, parse);
      }
    }
  }

  /** The fragments of `xs + ys` are those of `xs` followed by those of `ys`. */
  lemma {:induction false} FragmentsAppend(xs: seq<string>, ys: seq<string>, parse: Parser)
    ensures Fragments(xs + ys, parse) == Fragments(xs, parse) + Fragments(ys, parse)
    decreases |ys|
  {
    if ys == [] {
      assert xs + ys == xs;
    } else {
      var zs := xs + ys;
      assert zs[..|zs| - 1] == xs + ys[..|ys| - 1];
      assert zs[|zs| - 1] == ys[|ys| - 1];
      FragmentsAppend(xs, ys[..|ys| - 1], parse);
      Associative(Fragments(xs, parse), Fragments(ys[..|ys| - 1], parse), FragmentOf(ys[|ys| - 1], parse));
    }
  }

  /** The malformed lines of `xs + ys` are those of `xs` followed by those of `ys`. */
  lemma {:induction false} MalformedAppend(xs: seq<string>, ys: seq<string>, parse: Parser)
    ensures Malformed(xs + ys, parse) == Malformed(xs, parse) + Malformed(ys, parse)
    decreases |ys|
  {
    if ys == [] {
      assert xs + ys == xs;
    } else {
      var zs := xs + ys;
      assert zs[..|zs| - 1] == xs + ys[..|ys| - 1];
      assert zs[|zs| - 1] == ys[|ys| - 1];
      MalformedAppend(xs, ys[..|ys| - 1], parse);
      var last := ys[|ys| - 1];
      Associative(Malformed(xs, parse), Malformed(ys[..|ys| - 1], parse), if parse(last).None? then [last] else []);
    }
  }

  /** Reading one more chunk is reading its lines. */
  lemma ReadLastChunk(p: Progress, chunks: seq<string>, chunk: string, parse: Parser)
    ensures AbsorbChunks(p, chunks + [chunk], parse) == AbsorbLines(AbsorbChunks(p, chunks, parse), ChunkLines(chunk), parse)
  {
    assert (chunks + [chunk])[..|chunks|] == chunks;
  }

  /** Reading a single line is one step of Absorb. */
  lemma ReadOneLine(p: Progress, line: string, parse: Parser)
    ensures AbsorbLines(p, [line], parse) == Absorb(p, line, parse)
  {
    assert [line][..0] == [];
  }

  /** One more line read is one more step of Absorb. */
  lemma AbsorbLinesStep(p: Progress, lines: seq<string>, j: nat, parse: Parser)
    requires j < |lines|
    ensures AbsorbLines(p, lines[..j + 1], parse) == Absorb(AbsorbLines(p, lines[..j], parse), lines[j], parse)
  {
    assert lines[..j + 1][..j] == lines[..j];
  }

  /** Reading `xs` and then `ys` is reading `xs + ys`. */
  lemma {:induction false} AbsorbLinesAppend(p: Progress, xs: seq<string>, ys: seq<string>, parse: Parser)
    ensures AbsorbLines(p, xs + ys, parse) == AbsorbLines(AbsorbLines(p, xs, parse), ys, parse)
  {
    if ys == [] {
      assert xs + ys == xs;
    } else {
      var zs := xs + ys;
      assert zs[..|zs| - 1] == xs + ys[..|ys| - 1];
      AbsorbLinesAppend(p, xs, ys[..|ys| - 1], parse);
    }
  }

  /**
   * A malformed line stops nothing: the text and the shown texts are those of the same
   * lines without it, and the line itself is logged.
   */
  lemma MalformedLineIsSkipped(p: Progress, xs: seq<string>, bad: string, ys: seq<string>, parse: Parser)
    requires parse(bad).None?
    ensures AbsorbLines(p, xs + [bad] + ys, parse).text == AbsorbLines(p, xs + ys, parse).text
    ensures AbsorbLines(p, xs + [bad] + ys, parse).shown == AbsorbLines(p, xs + ys, parse).shown
    ensures AbsorbLines(p, xs + [bad] + ys, parse).rejected
         == p.rejected + Malformed(xs, parse) + [bad] + Malformed(ys, parse)
  {
    var with, without := xs + [bad] + ys, xs + ys;
    assert Fragments([bad], parse) == [] && Malformed([bad], parse) == [bad] by {
      assert [bad][..0] == [];
    }
    FragmentsAppend(xs + [bad], ys, parse);
    FragmentsAppend(xs, [bad], parse);
    FragmentsAppend(xs, ys, parse);
    assert Fragments(xs, parse) + [] == Fragments(xs, parse);
    assert Fragments(with, parse) == Fragments(without, parse);
    MalformedAppend(xs + [bad], ys, parse);
    MalformedAppend(xs, [bad], parse);
    AbsorbLinesEffect(p, with, parse);
    AbsorbLinesEffect(p, without, parse);
    Associative(p.rejected, Malformed(xs, parse) + [bad], Malformed(ys, parse));
    Associative(p.rejected, Malformed(xs, parse), [bad]);
  }

  /** Each shown text is a proper prefix of every later one, and the last is the current text. */
  ghost predicate Growing(p: Progress) {
    && (forall i, j :: 0 <= i < j < |p.shown| ==> p.shown[i] < p.shown[j])
    && (forall i :: 0 <= i < |p.shown| ==> p.shown[i] <= p.text)
    && (p.shown != [] ==> p.shown[|p.shown| - 1] == p.text)
  }

  /** One line keeps the shown texts growing, and the text only grows. */
  lemma AbsorbGrows(q: Progress, line: string, parse: Parser)
    requires Growing(q)
    ensures Growing(Absorb(q, line, parse))
    ensures q.text <= Absorb(q, line, parse).text
  {
    var r := Absorb(q, line, parse);
    if r.text != q.text {
      assert q.text < r.text;
      assert forall i :: 0 <= i < |q.shown| ==> q.shown[i] < r.text by {
        forall i | 0 <= i < |q.shown| ensures q.shown[i] < r.text {
          assert q.shown[i] <= q.text;
        }
      }
    }
  }

  /** `fullResponse` only grows, and what the assistant message shows grows with it. */
  lemma {:induction false} AbsorbLinesGrows(p: Progress, lines: seq<string>, parse: Parser)
    requires Growing(p)
    ensures Growing(AbsorbLines(p, lines, parse))
    ensures p.text <= AbsorbLines(p, lines, parse).text
  {
    if lines != [] {
      AbsorbLinesGrows(p, lines[..|lines| - 1], parse);
      AbsorbGrows(AbsorbLines(p, lines[..|lines| - 1], parse), lines[|lines| - 1], parse);
    }
  }

  /** Processing a stream is processing its chunks' lines one after another. */
  lemma {:induction false} ChunksAreSplitAlone(p: Progress, chunks: seq<string>, parse: Parser)
    ensures AbsorbChunks(p, chunks, parse) == AbsorbLines(p, ChunkedLines(chunks), parse)
  {
    if chunks != [] {
      var init := chunks[..|chunks| - 1];
      ChunksAreSplitAlone(p, init, parse);
      AbsorbLinesAppend(p, ChunkedLines(init), ChunkLines(chunks[|chunks| - 1]), parse);
    }
  }

  /**
   * One chunk's effect: `fullResponse` becomes its old value followed by the fragments of
   * that chunk's non-blank, parsed lines, in line order.
   */
  lemma ChunkEffect(p: Progress, chunks: seq<string>, chunk: string, parse: Parser)
    ensures AbsorbChunks(p, chunks + [chunk], parse).text
         == AbsorbChunks(p, chunks, parse).text + Concat(Fragments(ChunkLines(chunk), parse))
  {
    assert (chunks + [chunk])[..|chunks|] == chunks;
    AbsorbLinesEffect(AbsorbChunks(p, chunks, parse), ChunkLines(chunk), parse);
  }

  /** Two parsers that agree on which lines parse and on their `response` fields. */
  ghost predicate SameResponses(parse: Parser, other: Parser) {
    forall line ::
      && parse(line).Some? == other(line).Some?
      && (parse(line).Some? ==> parse(line).value.response == other(line).value.response)
  }

  /** The `done` flag of a record is never consulted: only the `response` fields matter. */
  lemma {:induction false} DoneIsNeverRead(p: Progress, chunks: seq<string>, parse: Parser, other: Parser)
    requires SameResponses(parse, other)
    ensures AbsorbChunks(p, chunks, parse) == AbsorbChunks(p, chunks, other)
  {
    ChunksAreSplitAlone(p, chunks, parse);
    ChunksAreSplitAlone(p, chunks, other);
    DoneIsNeverReadInLines(p, ChunkedLines(chunks), parse, other);
  }

  lemma {:induction false} DoneIsNeverReadInLines(p: Progress, lines: seq<string>, parse: Parser, other: Parser)
    requires SameResponses(parse, other)
    ensures AbsorbLines(p, lines, parse) == AbsorbLines(p, lines, other)
  {
    if lines != [] {
      DoneIsNeverReadInLines(p, lines[..|lines| - 1], parse, other);
      var line := lines[|lines| - 1];
      assert parse(line).Some? == other(line).Some?;
    }
  }

  /** How the body ended: `reader.read()` reported done, or it rejected with an error. */
  datatype Ending = Closed | Broken(message: string)

  /**
   * What `fetch` of the generate endpoint gave: a rejection with its message, or a
   * response with its `ok` flag, its status and its body as already-decoded chunks.
   */
  datatype Reply =
    | Unreachable(message: string)
    | Replied(ok: bool, status: nat, chunks: seq<string>, ending: Ending)

  /**
   * How `streamResponse` left: it returned, or it threw; `started` says whether the
   * assistant message had been added before the error.
   */
  datatype Outcome =
    | Completed(progress: Progress)
    | Threw(message: string, started: bool, progress: Progress)

  /** What `streamResponse` does with a reply. */
  function Streamed(reply: Reply, parse: Parser): Outcome {
    match reply
    case Unreachable(message) => Threw(message, false, Start)
    case Replied(ok, status, chunks, ending) =>
      if !ok then Threw(HttpErrorMessage(status), false, Start)
      else
        var p := AbsorbChunks(Start, chunks, parse);
        match ending
        case Closed => Completed(p)
        case Broken(message) => Threw(message, true, p)
  }

  /**
   * The reading loop: it ends normally only when the reader reports done, and its text is
   * every fragment of every chunk's lines, in order, however the reading ended.
   */
  lemma StreamedText(reply: Reply, parse: Parser)
    ensures Streamed(reply, parse).Completed? <==> reply.Replied? && reply.ok && reply.ending.Closed?
    ensures reply.Replied? && reply.ok ==>
      && Streamed(reply, parse).progress.text == Concat(Fragments(ChunkedLines(reply.chunks), parse))
      && Streamed(reply, parse).progress.shown == Running("", Fragments(ChunkedLines(reply.chunks), parse))
      && Streamed(reply, parse).progress.rejected == Malformed(ChunkedLines(reply.chunks), parse)
      && Growing(Streamed(reply, parse).progress)
  {
    if reply.Replied? && reply.ok {
      var lines := ChunkedLines(reply.chunks);
      ChunksAreSplitAlone(Start, reply.chunks, parse);
      AbsorbLinesEffect(Start, lines, parse);
      AbsorbLinesGrows(Start, lines, parse);
      var fs := Fragments(lines, parse);
      assert "" + Concat(fs) == Concat(fs);
      assert [] + Running("", fs) == Running("", fs);
      assert [] + Malformed(lines, parse) == Malformed(lines, parse);
    }
  }

  /**
   * The inner `for` loop of `streamResponse` over one chunk's lines, each parsed on its
   * own, starting from the values `fullResponse`, the shown texts and the log had before it.
   */
  method ReadLines(lines: seq<string>, parse: Parser, fullResponse0: string, shown0: seq<string>, rejected0: seq<string>)
    returns (fullResponse: string, shown: seq<string>, rejected: seq<string>)
    ensures Progress(fullResponse, shown, rejected)
         == AbsorbLines(Progress(fullResponse0, shown0, rejected0), lines, parse)
  {
    ghost var before := Progress(fullResponse0, shown0, rejected0);
    fullResponse, shown, rejected := fullResponse0, shown0, rejected0;
    assert lines[..0] == [];
    for j := 0 to |lines|
      invariant Progress(fullResponse, shown, rejected) == AbsorbLines(before, lines[..j], parse)
    {
      AbsorbLinesStep(before, lines, j, parse);
      var line := lines[j];
      var parsed := parse(line);
      if parsed.None? {
        rejected := rejected + [line];
      } else if parsed.value.response.Some? && parsed.value.response.value != "" {
        fullResponse := fullResponse + parsed.value.response.value;
        shown := shown + [fullResponse];
      }
    }
    assert lines[..|lines|] == lines;
  }

  /**
   * `streamResponse`: the request's outcome, then the `while (true)` loop that reads
   * chunks until the reader reports done (or rejects).
   */
  method StreamResponse(reply: Reply, parse: Parser) returns (outcome: Outcome)
    ensures outcome == Streamed(reply, parse)
  {
    if reply.Unreachable? {
      return Threw(reply.message, false, Start);
    }
    if !reply.ok {
      return Threw(HttpErrorMessage(reply.status), false, Start);
    }
    var chunks := reply.chunks;
    var fullResponse, shown, rejected := "", [], [];
    var i := 0;
    while i < |chunks|
      invariant 0 <= i <= |chunks|
      invariant Progress(fullResponse, shown, rejected) == AbsorbChunks(Start, chunks[..i], parse)
    {
      var lines := ChunkLines(chunks[i]);
      fullResponse, shown, rejected := ReadLines(lines, parse, fullResponse, shown, rejected);
      assert chunks[..i + 1][..i] == chunks[..i];
      i := i + 1;
    }
    assert chunks[..i] == chunks;
    var progress := Progress(fullResponse, shown, rejected);
    match reply.ending
    case Closed =>
      outcome := Completed(progress);
    case Broken(message) =>
      outcome := Threw(message, true, progress);
  }

  /** Lines each followed by a newline, as the server writes its records. */
  function Terminated(lines: seq<string>): string {
    if lines == [] then "" else lines[0] + "\n" + Terminated(lines[1..])
  }

  /** Filtering `xs + ys` is filtering `xs`, then `ys`. */
  lemma {:induction false} NonBlankAppend(xs: seq<string>, ys: seq<string>)
    ensures NonBlank(xs + ys) == NonBlank(xs) + NonBlank(ys)
  {
    if xs == [] {
      assert xs + ys == ys;
    } else {
      assert (xs + ys)[1..] == xs[1..] + ys;
      NonBlankAppend(xs[1..], ys);
      var head := if Trim(xs[0]) != "" then [xs[0]] else [];
      Associative(head, NonBlank(xs[1..]), NonBlank(ys));
    }
  }

  /** Lines that are all non-blank pass the filter unchanged. */
  lemma {:induction false} NonBlankKeepsAll(lines: seq<string>)
    requires forall i :: 0 <= i < |lines| ==> !IsBlank(lines[i])
    ensures NonBlank(lines) == lines
  {
    if lines != [] {
      assert Trim(lines[0]) != "";
      NonBlankKeepsAll(lines[1..]);
      assert [lines[0]] + lines[1..] == lines;
    }
  }

  /** Newline-terminated lines split into those lines and the empty piece after the last newline. */
  lemma {:induction false} SplitTerminated(lines: seq<string>)
    requires forall i :: 0 <= i < |lines| ==> '\n' !in lines[i]
    ensures Split(Terminated(lines), '\n') == lines + [""]
  {
    if lines != [] {
      SplitTerminated(lines[1..]);
      SplitAfterPiece(lines[0], '\n', Terminated(lines[1..]));
      assert lines + [""] == [lines[0]] + (lines[1..] + [""]);
    }
  }

  /** The filter keeps every non-blank line and drops the empty piece at the end. */
  lemma NonBlankDropsEmptyEnd(lines: seq<string>)
    requires forall i :: 0 <= i < |lines| ==> !IsBlank(lines[i])
    ensures NonBlank(lines + [""]) == lines
  {
    NonBlankAppend(lines, [""]);
    NonBlankKeepsAll(lines);
    assert NonBlank([""]) == [] by {
      assert Trim("") == "";
      assert [""][1..] == [];
    }
    assert lines + [] == lines;
  }

  /** A chunk of whole, non-blank lines, each ending in a newline, yields exactly those lines. */
  lemma WholeLines(lines: seq<string>)
    requires forall i :: 0 <= i < |lines| ==> '\n' !in lines[i] && !IsBlank(lines[i])
    ensures ChunkLines(Terminated(lines)) == lines
  {
    SplitTerminated(lines);
    NonBlankDropsEmptyEnd(lines);
  }

  /** A single line, with or without its newline, is a chunk of one line. */
  lemma OneLine(line: string)
    requires '\n' !in line && !IsBlank(line)
    ensures ChunkLines(line) == [line]
    ensures ChunkLines(line + "\n") == [line]
  {
    SplitSeparatorFree(line, '\n');
    NonBlankKeepsAll([line]);
    WholeLines([line]);
    assert Terminated([line]) == line + "\n" by {
      assert [line][1..] == [];
    }
  }

  /** Two halves of a line make a line. */
  lemma JoinedHalves(head: string, tail: string)
    requires '\n' !in head && '\n' !in tail && !IsBlank(head)
    ensures '\n' !in head + tail && !IsBlank(head + tail)
  {
    var whole := head + tail;
    assert !IsBlank(whole) by {
      var k :| 0 <= k < |head| && !IsSpace(head[k]);
      assert whole[k] == head[k];
    }
    assert '\n' !in whole by {
      assert forall k :: 0 <= k < |whole| ==> whole[k] == if k < |head| then head[k] else tail[k - |head|];
    }
  }

  /** Reading one chunk of one line is one step of Absorb. */
  lemma ReadOneChunk(p: Progress, chunk: string, line: string, parse: Parser)
    requires ChunkLines(chunk) == [line]
    ensures AbsorbChunks(p, [chunk], parse) == Absorb(p, line, parse)
  {
    assert [] + [chunk] == [chunk];
    ReadLastChunk(p, [], chunk, parse);
    ReadOneLine(p, line, parse);
  }

  /** Reading two chunks of one line each is two steps of Absorb. */
  lemma ReadTwoChunks(p: Progress, first: string, second: string, l1: string, l2: string, parse: Parser)
    requires ChunkLines(first) == [l1] && ChunkLines(second) == [l2]
    ensures AbsorbChunks(p, [first, second], parse) == Absorb(Absorb(p, l1, parse), l2, parse)
  {
    assert [first] + [second] == [first, second];
    ReadLastChunk(p, [first], second, parse);
    ReadOneChunk(p, first, l1, parse);
    ReadOneLine(Absorb(p, l1, parse), l2, parse);
  }

  /** Two unparsable lines read from the start are both logged, and nothing is appended. */
  lemma TwoRejectedLines(parse: Parser, head: string, tail: string)
    requires parse(head).None? && parse(tail).None?
    ensures Absorb(Absorb(Start, head, parse), tail, parse) == Progress("", [], [head, tail])
  {
    var p1 := Absorb(Start, head, parse);
    assert p1 == Progress("", [], [head]) by {
      assert [] + [head] == [head];
    }
    assert [head] + [tail] == [head, tail];
  }

  /** Two chunks holding one unparsable line each: both are logged, nothing is appended. */
  lemma TwoRejectedChunks(parse: Parser, head: string, tail: string)
    requires '\n' !in head && '\n' !in tail && !IsBlank(head) && !IsBlank(tail)
    requires parse(head).None? && parse(tail).None?
    ensures AbsorbChunks(Start, [head, tail + "\n"], parse) == Progress("", [], [head, tail])
  {
    OneLine(head);
    OneLine(tail);
    ReadTwoChunks(Start, head, tail + "\n", head, tail, parse);
    TwoRejectedLines(parse, head, tail);
  }

  /** One chunk holding one line whose record has a non-empty `response`. */
  lemma OneFragmentChunk(parse: Parser, line: string, fragment: string)
    requires '\n' !in line && !IsBlank(line)
    requires parse(line).Some? && parse(line).value.response == Some(fragment) && fragment != ""
    ensures AbsorbChunks(Start, [line + "\n"], parse) == Progress(fragment, [fragment], [])
  {
    OneLine(line);
    ReadOneChunk(Start, line + "\n", line, parse);
    assert FragmentOf(line, parse) == [fragment];
    assert "" + fragment == fragment;
    assert [] + [fragment] == [fragment];
  }

  /**
   * No partial line is carried from one chunk to the next: a record line cut in two by a
   * chunk boundary becomes two logged parse failures and its fragment is lost, while the
   * same characters in one chunk give the fragment. (For example the halves
   * `{"response":"Hel` and `lo"}`, neither of which parses.)
   */
  lemma LineAcrossChunksIsLost(parse: Parser, head: string, tail: string, fragment: string)
    requires '\n' !in head && '\n' !in tail
    requires !IsBlank(head) && !IsBlank(tail)
    requires parse(head).None? && parse(tail).None?
    requires parse(head + tail).Some? && parse(head + tail).value.response == Some(fragment)
    requires fragment != ""
    ensures AbsorbChunks(Start, [head, tail + "\n"], parse) == Progress("", [], [head, tail])
    ensures AbsorbChunks(Start, [head + tail + "\n"], parse) == Progress(fragment, [fragment], [])
  {
    JoinedHalves(head, tail);
    TwoRejectedChunks(parse, head, tail);
    OneFragmentChunk(parse, head + tail, fragment);
  }

  /** Reading three lines is three steps of Absorb. */
  lemma AbsorbThree(p: Progress, a: string, b: string, c: string, parse: Parser)
    ensures AbsorbLines(p, [a, b, c], parse) == Absorb(Absorb(Absorb(p, a, parse), b, parse), c, parse)
  {
    assert [a][..0] == [];
    assert AbsorbLines(p, [a], parse) == Absorb(p, a, parse);
    assert [a, b][..1] == [a];
    assert AbsorbLines(p, [a, b], parse) == Absorb(AbsorbLines(p, [a], parse), b, parse);
    assert [a, b, c][..2] == [a, b];
  }

  /** The three lines of the example below, read in order. */
  lemma TwoFragmentsThenDoneLines(parse: Parser, a: string, b: string, c: string, x: string, y: string)
    requires x != "" && y != ""
    requires parse(a) == Some(Record(Some(x), false))
    requires parse(b) == Some(Record(Some(y), false))
    requires parse(c) == Some(Record(None, true))
    ensures AbsorbLines(Start, [a, b, c], parse) == Progress(x + y, [x, x + y], [])
  {
    AbsorbThree(Start, a, b, c, parse);
    var p1 := Progress(x, [x], []);
    var p2 := Progress(x + y, [x, x + y], []);
    assert FragmentOf(a, parse) == [x];
    assert "" + x == x;
    assert Absorb(Start, a, parse) == p1;
    assert FragmentOf(b, parse) == [y];
    assert Absorb(p1, b, parse) == p2;
    assert FragmentOf(c, parse) == [];
  }

  /**
   * Three records in one chunk, such as `{response:"He"}`, `{response:"llo"}` and
   * `{done:true}`, give the two fragments joined ("Hello"), shown first as the first
   * fragment alone and then as the whole; the record without a response adds nothing.
   */
  lemma TwoFragmentsThenDone(parse: Parser, a: string, b: string, c: string, x: string, y: string)
    requires '\n' !in a && '\n' !in b && '\n' !in c
    requires !IsBlank(a) && !IsBlank(b) && !IsBlank(c)
    requires x != "" && y != ""
    requires parse(a) == Some(Record(Some(x), false))
    requires parse(b) == Some(Record(Some(y), false))
    requires parse(c) == Some(Record(None, true))
    ensures Streamed(Replied(true, 200, [Terminated([a, b, c])], Closed), parse)
         == Completed(Progress(x + y, [x, x + y], []))
  {
    var chunk := Terminated([a, b, c]);
    WholeLines([a, b, c]);
    assert [] + [chunk] == [chunk];
    ReadLastChunk(Start, [], chunk, parse);
    TwoFragmentsThenDoneLines(parse, a, b, c, x, y);
  }
}
