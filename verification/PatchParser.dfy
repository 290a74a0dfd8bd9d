/** `parse_patchset` of check-style.py and its round trip with the writer. */
module PatchParser {
  import opened Options
  import opened PatchFormat

  /** The patch set so far, and where the object that `current_chunk` names sits in it. */
  datatype State = State(patches: seq<Patch>, chunk: Option<(nat, nat)>)

  /**
   * A header or chunk before any source header makes `current_patch` None fail, a body line before any chunk finds
   * `current_chunk` unbound, and a line that matches nothing raises.
   */
  datatype Outcome = Ok(state: State) | AttributeError | UnboundLocalError | Unmatched

  predicate StateOk(st: State) {
    match st.chunk
    case None => true
    case Some((i, j)) => i < |st.patches| && j < |st.patches[i].chunks|
  }

  function AddLine(ps: seq<Patch>, i: nat, j: nat, l: Line): seq<Patch>
    requires i < |ps| && j < |ps[i].chunks|
  {
    var c := ps[i].chunks[j];
    ps[i := ps[i].(chunks := ps[i].chunks[j := c.(lines := c.lines + [l])])]
  }

  function Feed(st: State, line: string): (r: Outcome)
    requires StateOk(st)
    ensures r.Ok? ==> StateOk(r.state)
  {
    var n := |st.patches|;
    match Classify(line)
    case SrcFile(name) => Ok(st.(patches := st.patches + [Patch(name, "", [])]))
    case DstFile(name) =>
      if n == 0 then AttributeError
      else Ok(st.(patches := st.patches[n - 1 := st.patches[n - 1].(dst := name)]))
    case ChunkStart(srcPos, dstPos) =>
      if n == 0 then AttributeError
      else
        var p := st.patches[n - 1];
        Ok(State(st.patches[n - 1 := p.(chunks := p.chunks + [Chunk(srcPos, dstPos, [])])], Some((n - 1, |p.chunks|))))
    case Body(l) =>
      (match st.chunk
       case None => UnboundLocalError
       case Some((i, j)) => Ok(st.(patches := AddLine(st.patches, i, j, l))))
    case NoMatch => Unmatched
  }

  function Run(st: State, lines: seq<string>): (r: Outcome)
    requires StateOk(st)
    ensures r.Ok? ==> StateOk(r.state)
    decreases |lines|
  {
    if lines == [] then Ok(st)
    else
      var r := Run(st, lines[..|lines| - 1]);
      if r.Ok? then Feed(r.state, lines[|lines| - 1]) else r
  }

  const START := State([], None)

  /** The patches read, or None when an exception is raised. */
  function Parse(lines: seq<string>): Option<seq<Patch>> {
    var r := Run(START, lines);
    if r.Ok? then Some(r.state.patches) else None
  }

  lemma {:induction false} RunConcat(st: State, a: seq<string>, b: seq<string>)
    requires StateOk(st)
    ensures Run(st, a + b) == if Run(st, a).Ok? then Run(Run(st, a).state, b) else Run(st, a)
    decreases |b|
  {
    if b == [] {
      assert a + b == a;
    } else {
      assert (a + b)[..|a + b| - 1] == a + b[..|b| - 1];
      RunConcat(st, a, b[..|b| - 1]);
    }
  }

  lemma RunOne(st: State, line: string)
    requires StateOk(st)
    ensures Run(st, [line]) == Feed(st, line)
  {
    assert [line][..0] == [];
  }

  // ---- well-formed patch lists ----

  /** No name and no line contains a newline, as in anything read from a text file. */
  predicate SingleLines(ps: seq<Patch>) {
    forall i :: 0 <= i < |ps| ==> PatchSingle(ps[i])
  }

  predicate PatchSingle(p: Patch) {
    OneLine(p.src) && OneLine(p.dst) && ChunksSingle(p.chunks)
  }

  predicate ChunksSingle(cs: seq<Chunk>) {
    forall j :: 0 <= j < |cs| ==> LinesSingle(cs[j].lines)
  }

  predicate LinesSingle(ls: seq<Line>) {
    forall k :: 0 <= k < |ls| ==> OneLine(ls[k].text)
  }

  predicate Unambiguous(ps: seq<Patch>) {
    forall i :: 0 <= i < |ps| ==> ChunksUnambiguous(ps[i].chunks)
  }

  predicate ChunksUnambiguous(cs: seq<Chunk>) {
    forall j :: 0 <= j < |cs| ==> LinesUnambiguous(cs[j].lines)
  }

  predicate LinesUnambiguous(ls: seq<Line>) {
    forall k :: 0 <= k < |ls| ==> !Ambiguous(ls[k])
  }

  // ---- reading back what was written ----

  /** The last patch of a state has just got its last chunk, with these lines. */
  function InChunk(q: seq<Patch>, p: Patch, c: Chunk, lines: seq<Line>): State {
    State(q + [p.(chunks := p.chunks + [c.(lines := lines)])], Some((|q|, |p.chunks|)))
  }

  lemma FeedBody(q: seq<Patch>, p: Patch, c: Chunk, lines: seq<Line>, l: Line)
    requires OneLine(l.text) && !Ambiguous(l)
    ensures Feed(InChunk(q, p, c, lines), WriteLine(l)) == Ok(InChunk(q, p, c, lines + [l]))
  {
    hide Classify, Ambiguous, WriteLine;
    ClassifyBody(l);
    var p1, p2 := p.(chunks := p.chunks + [c.(lines := lines)]), p.(chunks := p.chunks + [c.(lines := lines + [l])]);
    assert p1.chunks[|p.chunks| := c.(lines := lines + [l])] == p2.chunks;
    assert (q + [p1])[|q| := p2] == q + [p2];
  }

  lemma {:induction false} ReadLines(q: seq<Patch>, p: Patch, c: Chunk, lines: seq<Line>)
    requires LinesSingle(lines) && LinesUnambiguous(lines)
    ensures StateOk(InChunk(q, p, c, []))
    ensures Run(InChunk(q, p, c, []), WriteLines(lines)) == Ok(InChunk(q, p, c, lines))
    decreases |lines|
  {
    hide Classify, Feed, WriteLine, Ambiguous;
    if lines == [] {
    } else {
      var front, l := lines[..|lines| - 1], lines[|lines| - 1];
      ReadLines(q, p, c, front);
      FeedBody(q, p, c, front, l);
      assert front + [l] == lines;
      assert WriteLines(lines)[..|WriteLines(front)|] == WriteLines(front);
    }
  }

  function InPatch(q: seq<Patch>, p: Patch, chunks: seq<Chunk>, before: Option<(nat, nat)>): State {
    State(q + [p.(chunks := chunks)], if chunks == [] then before else Some((|q|, |chunks| - 1)))
  }

  lemma FeedHeader(q: seq<Patch>, p: Patch, chunks: seq<Chunk>, before: Option<(nat, nat)>, c: Chunk)
    requires StateOk(State(q, before))
    ensures StateOk(InPatch(q, p, chunks, before))
    ensures Feed(InPatch(q, p, chunks, before), WriteHeader(c)) == Ok(InChunk(q, p.(chunks := chunks), c, []))
  {
    hide Classify, WriteHeader;
    ClassifyHeader(c);
    var p1, p2 := p.(chunks := chunks), p.(chunks := chunks + [c.(lines := [])]);
    assert (q + [p1])[|q| := p2] == q + [p2];
  }

  lemma {:induction false} ReadChunks(q: seq<Patch>, p: Patch, chunks: seq<Chunk>, before: Option<(nat, nat)>)
    requires ChunksSingle(chunks) && ChunksUnambiguous(chunks)
    requires StateOk(State(q, before))
    ensures StateOk(InPatch(q, p, [], before))
    ensures Run(InPatch(q, p, [], before), WriteChunks(chunks)) == Ok(InPatch(q, p, chunks, before))
    decreases |chunks|
  {
    hide Classify, Feed, WriteHeader, WriteLines, LinesSingle, LinesUnambiguous;
    FeedHeader(q, p, [], before, Chunk(0, 0, []));
    if chunks == [] {
    } else {
      var front, c := chunks[..|chunks| - 1], chunks[|chunks| - 1];
      ReadChunks(q, p, front, before);
      var st0, st := InPatch(q, p, [], before), InPatch(q, p, front, before);
      FeedHeader(q, p, front, before, c);
      RunConcat(st0, WriteChunks(front), [WriteHeader(c)]);
      RunConcat(st0, WriteChunks(front) + [WriteHeader(c)], WriteLines(c.lines));
      RunOne(st, WriteHeader(c));
      ReadLines(q, p.(chunks := front), c, c.lines);
      assert c.(lines := c.lines) == c && front + [c] == chunks;
    }
  }

  /** Where `current_chunk` is after reading these patches. */
  function LastChunk(ps: seq<Patch>): Option<(nat, nat)> {
    if ps == [] then None
    else
      var p := ps[|ps| - 1];
      if p.chunks == [] then LastChunk(ps[..|ps| - 1]) else Some((|ps| - 1, |p.chunks| - 1))
  }

  lemma {:induction false} LastChunkOk(ps: seq<Patch>)
    ensures StateOk(State(ps, LastChunk(ps)))
    decreases |ps|
  {
    if ps == [] || ps[|ps| - 1].chunks != [] {
    } else {
      LastChunkOk(ps[..|ps| - 1]);
    }
  }

  lemma ReadFiles(q: seq<Patch>, p: Patch, before: Option<(nat, nat)>)
    requires StateOk(State(q, before)) && OneLine(p.src) && OneLine(p.dst)
    ensures StateOk(InPatch(q, p, [], before))
    ensures Run(State(q, before), ["--- " + p.src + "\n", "+++ " + p.dst + "\n"]) == Ok(InPatch(q, p, [], before))
  {
    hide Classify;
    ClassifySrcFile(p.src);
    ClassifyDstFile(p.dst);
    var srcLine, dstLine := "--- " + p.src + "\n", "+++ " + p.dst + "\n";
    var st1 := State(q + [Patch(p.src, "", [])], before);
    assert (q + [Patch(p.src, "", [])])[|q| := p.(chunks := [])] == q + [p.(chunks := [])];
    RunOne(State(q, before), srcLine);
    RunOne(st1, dstLine);
    RunConcat(State(q, before), [srcLine], [dstLine]);
    assert [srcLine, dstLine] == [srcLine] + [dstLine];
  }

  lemma {:induction false} ReadAll(ps: seq<Patch>)
    requires SingleLines(ps) && Unambiguous(ps)
    ensures Run(START, WriteAll(ps)) == Ok(State(ps, LastChunk(ps)))
    decreases |ps|
  {
    hide Classify, Feed, WriteChunks, ChunksSingle, ChunksUnambiguous;
    if ps == [] {
    } else {
      var q, p := ps[..|ps| - 1], ps[|ps| - 1];
      ReadAll(q);
      LastChunkOk(q);
      var st := State(q, LastChunk(q));
      ReadFiles(q, p, LastChunk(q));
      ReadChunks(q, p, p.chunks, LastChunk(q));
      RunConcat(st, ["--- " + p.src + "\n", "+++ " + p.dst + "\n"], WriteChunks(p.chunks));
      RunConcat(START, WriteAll(q), WritePatch(p));
      assert p.(chunks := p.chunks) == p && q + [p] == ps;
    }
  }

  // ---- exactly when the round trip works ----

  function LineCount(cs: seq<Chunk>): nat {
    if cs == [] then 0 else LineCount(cs[..|cs| - 1]) + |cs[|cs| - 1].lines|
  }

  function TotalLines(ps: seq<Patch>): nat {
    if ps == [] then 0 else TotalLines(ps[..|ps| - 1]) + LineCount(ps[|ps| - 1].chunks)
  }

  function Bodies(lines: seq<string>): nat {
    if lines == [] then 0
    else Bodies(lines[..|lines| - 1]) + if Classify(lines[|lines| - 1]).Body? then 1 else 0
  }

  lemma {:induction false} LineCountUpdate(cs: seq<Chunk>, j: nat, c: Chunk)
    requires j < |cs|
    ensures LineCount(cs[j := c]) == LineCount(cs) - |cs[j].lines| + |c.lines|
    decreases |cs|
  {
    var n := |cs| - 1;
    if j == n {
      assert cs[j := c][..n] == cs[..n];
    } else {
      assert cs[j := c][..n] == cs[..n][j := c];
      LineCountUpdate(cs[..n], j, c);
    }
  }

  lemma {:induction false} TotalLinesUpdate(ps: seq<Patch>, i: nat, p: Patch)
    requires i < |ps|
    ensures TotalLines(ps[i := p]) == TotalLines(ps) - LineCount(ps[i].chunks) + LineCount(p.chunks)
    decreases |ps|
  {
    var n := |ps| - 1;
    if i == n {
      assert ps[i := p][..n] == ps[..n];
    } else {
      assert ps[i := p][..n] == ps[..n][i := p];
      TotalLinesUpdate(ps[..n], i, p);
    }
  }

  lemma FeedCounts(st: State, line: string)
    requires StateOk(st) && Feed(st, line).Ok?
    ensures TotalLines(Feed(st, line).state.patches) == TotalLines(st.patches) + if Classify(line).Body? then 1 else 0
  {
    hide Classify, TotalLines, LineCount;
    var n := |st.patches|;
    var st' := Feed(st, line).state;
    match Classify(line)
    case SrcFile(name) =>
      TotalLinesAppend(st.patches, Patch(name, "", []));
    case DstFile(name) =>
      TotalLinesUpdate(st.patches, n - 1, st'.patches[n - 1]);
    case ChunkStart(srcPos, dstPos) =>
      var p := st.patches[n - 1];
      LineCountAppend(p.chunks, Chunk(srcPos, dstPos, []));
      TotalLinesUpdate(st.patches, n - 1, st'.patches[n - 1]);
    case Body(l) =>
      var (i, j) := st.chunk.value;
      var c := st.patches[i].chunks[j];
      LineCountUpdate(st.patches[i].chunks, j, c.(lines := c.lines + [l]));
      TotalLinesUpdate(st.patches, i, st'.patches[i]);
  }

  lemma TotalLinesAppend(ps: seq<Patch>, p: Patch)
    requires p.chunks == []
    ensures TotalLines(ps + [p]) == TotalLines(ps)
  {
    assert (ps + [p])[..|ps|] == ps;
  }

  /** A body line behind a new file header goes to the chunk begun last, though it belongs to the patch before. */
  lemma StrayLineGoesBack(st: State, header: string, name: string, line: string, l: Line)
    requires StateOk(st) && st.chunk.Some? && Classify(header) == SrcFile(name) && Classify(line) == Body(l)
    ensures Run(st, [header, line])
            == var (i, j) := st.chunk.value;
               Ok(State(AddLine(st.patches, i, j, l) + [Patch(name, "", [])], st.chunk))
  {
    hide Classify, AddLine;
    var (i, j) := st.chunk.value;
    var st1 := State(st.patches + [Patch(name, "", [])], st.chunk);
    RunOne(st, header);
    RunOne(st1, line);
    RunConcat(st, [header], [line]);
    assert [header, line] == [header] + [line];
    AddLineBefore(st.patches, Patch(name, "", []), i, j, l);
  }

  lemma AddLineBefore(ps: seq<Patch>, p: Patch, i: nat, j: nat, l: Line)
    requires i < |ps| && j < |ps[i].chunks|
    ensures AddLine(ps + [p], i, j, l) == AddLine(ps, i, j, l) + [p]
  {
  }

  lemma LineCountAppend(cs: seq<Chunk>, c: Chunk)
    ensures LineCount(cs + [c]) == LineCount(cs) + |c.lines|
  {
    assert (cs + [c])[..|cs|] == cs;
  }

  lemma {:induction false} RunCounts(lines: seq<string>)
    requires Run(START, lines).Ok?
    ensures TotalLines(Run(START, lines).state.patches) == Bodies(lines)
    decreases |lines|
  {
    hide Classify, Feed;
    if lines == [] {
    } else {
      RunCounts(lines[..|lines| - 1]);
      FeedCounts(Run(START, lines[..|lines| - 1]).state, lines[|lines| - 1]);
    }
  }

  lemma {:induction false} BodiesConcat(a: seq<string>, b: seq<string>)
    ensures Bodies(a + b) == Bodies(a) + Bodies(b)
    decreases |b|
  {
    hide Classify;
    if b == [] {
      assert a + b == a;
    } else {
      assert (a + b)[..|a + b| - 1] == a + b[..|b| - 1];
      BodiesConcat(a, b[..|b| - 1]);
    }
  }

  lemma BodiesOne(line: string)
    ensures Bodies([line]) == if Classify(line).Body? then 1 else 0
  {
    hide Classify;
    assert [line][..0] == [];
  }

  lemma {:induction false} BodiesOfLines(lines: seq<Line>)
    requires LinesSingle(lines)
    ensures Bodies(WriteLines(lines)) <= |lines|
    ensures Bodies(WriteLines(lines)) == |lines| ==> LinesUnambiguous(lines)
    decreases |lines|
  {
    hide Classify, Ambiguous, WriteLine, OneLine, Bodies;
    if lines == [] {
      NoBodies();
    } else {
      var front, l := lines[..|lines| - 1], lines[|lines| - 1];
      assert lines == front + [l];
      BodiesOfLines(front);
      BodiesConcat(WriteLines(front), [WriteLine(l)]);
      BodiesOne(WriteLine(l));
      ClassifyBody(l);
    }
  }

  lemma {:induction false} BodiesOfChunks(chunks: seq<Chunk>)
    requires ChunksSingle(chunks)
    ensures Bodies(WriteChunks(chunks)) <= LineCount(chunks)
    ensures Bodies(WriteChunks(chunks)) == LineCount(chunks) ==> ChunksUnambiguous(chunks)
    decreases |chunks|
  {
    hide Classify, WriteHeader, WriteLines, LinesSingle, LinesUnambiguous, Bodies;
    if chunks == [] {
      NoBodies();
    } else {
      var front, c := chunks[..|chunks| - 1], chunks[|chunks| - 1];
      assert chunks == front + [c];
      BodiesOfChunks(front);
      BodiesConcat(WriteChunks(front), [WriteHeader(c)]);
      BodiesConcat(WriteChunks(front) + [WriteHeader(c)], WriteLines(c.lines));
      BodiesOne(WriteHeader(c));
      ClassifyHeader(c);
      BodiesOfLines(c.lines);
    }
  }

  lemma {:induction false} BodiesOfAll(ps: seq<Patch>)
    requires SingleLines(ps)
    ensures Bodies(WriteAll(ps)) <= TotalLines(ps)
    ensures Bodies(WriteAll(ps)) == TotalLines(ps) ==> Unambiguous(ps)
    decreases |ps|
  {
    hide Classify, WritePatch, ChunksSingle, ChunksUnambiguous, Bodies, OneLine;
    if ps == [] {
      NoBodies();
    } else {
      var q, p := ps[..|ps| - 1], ps[|ps| - 1];
      assert ps == q + [p];
      BodiesOfAll(q);
      BodiesConcat(WriteAll(q), WritePatch(p));
      BodiesOfPatch(p);
    }
  }

  lemma NoBodies()
    ensures Bodies([]) == 0
  {
  }

  /** File headers are no body lines. */
  lemma BodiesOfPatch(p: Patch)
    requires OneLine(p.src) && OneLine(p.dst) && ChunksSingle(p.chunks)
    ensures Bodies(WritePatch(p)) == Bodies(WriteChunks(p.chunks)) <= LineCount(p.chunks)
    ensures Bodies(WritePatch(p)) == LineCount(p.chunks) ==> ChunksUnambiguous(p.chunks)
  {
    hide Classify, WriteChunks, Bodies, ChunksSingle, ChunksUnambiguous, OneLine, LineCount;
    var srcLine, dstLine := "--- " + p.src + "\n", "+++ " + p.dst + "\n";
    assert WritePatch(p) == [srcLine] + [dstLine] + WriteChunks(p.chunks);
    BodiesConcat([srcLine], [dstLine]);
    BodiesConcat([srcLine] + [dstLine], WriteChunks(p.chunks));
    BodiesOne(srcLine);
    BodiesOne(dstLine);
    ClassifySrcFile(p.src);
    ClassifyDstFile(p.dst);
    BodiesOfChunks(p.chunks);
  }

  /**
   * Writing a patch list and parsing the result gives the list back if and only if no removed line starts with
   * "-- " and no added line with "++ ".
   */
  lemma RoundTripIff(ps: seq<Patch>)
    requires SingleLines(ps)
    ensures Parse(WriteAll(ps)) == Some(ps) <==> Unambiguous(ps)
  {
    if Unambiguous(ps) {
      ReadAll(ps);
    }
    if Parse(WriteAll(ps)) == Some(ps) {
      RunCounts(WriteAll(ps));
      BodiesOfAll(ps);
    }
  }
}
