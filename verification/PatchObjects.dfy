/** The classes of check-style.py and the loop of `parse_patchset` over them. */
module PatchObjects {
  import opened Options
  import PF = PatchFormat
  import PP = PatchParser

  class PatchChunk {
    const srcPos: nat
    const dstPos: nat
    var lines: seq<PF.Line>
    /** Which patch of the set holds this chunk, and at which position. */
    ghost const at: (nat, nat)

    constructor (srcPos: nat, dstPos: nat, ghost at: (nat, nat))
      ensures this.srcPos == srcPos && this.dstPos == dstPos && lines == [] && this.at == at
    {
      this.srcPos, this.dstPos, lines, this.at := srcPos, dstPos, [], at;
    }

    ghost function View(): PF.Chunk
      reads this
    {
      PF.Chunk(srcPos, dstPos, lines)
    }

    method AddLine(line: PF.Line)
      modifies this
      ensures lines == old(lines) + [line]
    {
      lines := lines + [line];
    }

    /** `src` and, with the sides exchanged, `dst`: the lines not of the other side alone, in order. */
    method LinesOf(other: PF.Side) returns (r: seq<PF.Line>)
      ensures r == PF.SideLines(lines, other) && |r| == PF.CountSide(lines, other)
      ensures multiset(r) <= multiset(lines) && forall l :: l in r <==> l in lines && l.side != other
    {
      hide PF.CountSide, PF.SideLines;
      NoLines(other);
      r := [];
      for i := 0 to |lines|
        invariant r == PF.SideLines(lines[..i], other) && |r| == PF.CountSide(lines[..i], other)
        invariant multiset(r) <= multiset(lines[..i])
        invariant forall l :: l in r <==> l in lines[..i] && l.side != other
      {
        OneMoreLine(lines, i, other);
        if lines[i].side != other {
          r := r + [lines[i]];
        }
      }
      assert lines[..|lines|] == lines;
    }

    method Write() returns (text: seq<string>)
      ensures text == [PF.WriteHeader(View())] + PF.WriteLines(lines)
      ensures PF.ChunkGroups(text[0])
              == Some((srcPos, |PF.OnSide(lines, PF.Dst)|, dstPos, |PF.OnSide(lines, PF.Src)|))
      ensures |text| == 1 + |lines|
      ensures forall i :: 0 <= i < |lines| ==> text[i + 1] == Marked(lines[i])
    {
      PF.HeaderGroups(View());
      hide Marked, PF.OnSide, PF.ChunkGroups;
      HeaderCounts(View());
      NothingWritten();
      hide PF.CountSide, PF.SideLines, PF.Header, PF.WriteLine, PF.WriteHeader, PF.WriteLines;
      var src := LinesOf(PF.Dst);
      var dst := LinesOf(PF.Src);
      text := [PF.Header(srcPos, |src|, dstPos, |dst|)];
      for i := 0 to |lines|
        invariant text == [PF.WriteHeader(View())] + PF.WriteLines(lines[..i])
      {
        WriteOneLine(lines, i);
        text := text + [PF.WriteLine(lines[i])];
      }
      assert lines[..|lines|] == lines;
      ChunkText(lines, PF.WriteHeader(View()));
    }
  }

  class Patch {
    var src: string
    var dst: string
    var chunks: seq<PatchChunk>
    /** The position of this patch in the set. */
    ghost const at: nat

    constructor (ghost at: nat)
      ensures src == "" && dst == "" && chunks == [] && this.at == at
    {
      src, dst, chunks, this.at := "", "", [], at;
    }

    method Write() returns (text: seq<string>)
      ensures text == PF.WritePatch(PF.Patch(src, dst, ViewChunks(chunks)))
    {
      hide PF.WriteChunks, PF.WriteHeader, PF.WriteLines;
      text := ["--- " + src + "\n", "+++ " + dst + "\n"];
      ghost var head := text;
      NoChunksWritten();
      assert chunks[..0] == [];
      for j := 0 to |chunks|
        invariant text == head + PF.WriteChunks(ViewChunks(chunks[..j]))
      {
        var written := WriteChunk(chunks[j]);
        WriteOneMore(chunks, j);
        assert head + (PF.WriteChunks(ViewChunks(chunks[..j])) + written)
            == head + PF.WriteChunks(ViewChunks(chunks[..j])) + written;
        text := text + written;
      }
      assert chunks[..|chunks|] == chunks;
    }
  }

  method WriteChunk(c: PatchChunk) returns (text: seq<string>)
    ensures text == [PF.WriteHeader(c.View())] + PF.WriteLines(c.lines)
  {
    hide PF.ChunkGroups, PF.OnSide, Marked;
    text := c.Write();
  }

  ghost function ViewChunks(cs: seq<PatchChunk>): seq<PF.Chunk>
    reads cs
  {
    seq(|cs|, j requires 0 <= j < |cs| reads cs => cs[j].View())
  }

  /** One line of a chunk as `PatchChunkLine.write` prints it. */
  function Marked(l: PF.Line): string {
    match l.side
    case Src => "-" + l.text + "\n"
    case Dst => "+" + l.text + "\n"
    case Both => " " + l.text + "\n"
  }

  lemma MarkedIs(l: PF.Line)
    ensures PF.WriteLine(l) == Marked(l)
  {
  }

  lemma {:induction false} WrittenMarked(lines: seq<PF.Line>)
    ensures |PF.WriteLines(lines)| == |lines|
    ensures forall i :: 0 <= i < |lines| ==> PF.WriteLines(lines)[i] == Marked(lines[i])
    decreases |lines|
  {
    hide PF.WriteLines, PF.WriteLine, Marked;
    if lines == [] {
      NothingWritten();
    } else {
      var n := |lines| - 1;
      WrittenMarked(lines[..n]);
      WriteOneLine(lines, n);
      assert lines[..n + 1] == lines;
      MarkedIs(lines[n]);
    }
  }

  lemma ChunkText(lines: seq<PF.Line>, header: string)
    ensures var text := [header] + PF.WriteLines(lines);
            && |text| == 1 + |lines| && text[0] == header
            && forall i :: 0 <= i < |lines| ==> text[i + 1] == Marked(lines[i])
  {
    hide PF.WriteLines, Marked;
    WrittenMarked(lines);
  }

  lemma HeaderCounts(c: PF.Chunk)
    ensures PF.WriteHeader(c)
            == PF.Header(c.srcPos, PF.CountSide(c.lines, PF.Dst), c.dstPos, PF.CountSide(c.lines, PF.Src))
  {
  }

  lemma NothingWritten()
    ensures PF.WriteLines([]) == []
  {
  }

  lemma WriteOneLine(lines: seq<PF.Line>, i: nat)
    requires i < |lines|
    ensures PF.WriteLines(lines[..i + 1]) == PF.WriteLines(lines[..i]) + [PF.WriteLine(lines[i])]
  {
    assert lines[..i + 1][..i] == lines[..i];
  }

  lemma NoLines(other: PF.Side)
    ensures PF.CountSide([], other) == 0 && PF.SideLines([], other) == []
  {
  }

  lemma OneMoreLine(lines: seq<PF.Line>, i: nat, other: PF.Side)
    requires i < |lines|
    ensures PF.CountSide(lines[..i + 1], other)
            == PF.CountSide(lines[..i], other) + if lines[i].side != other then 1 else 0
    ensures PF.SideLines(lines[..i + 1], other)
            == PF.SideLines(lines[..i], other) + if lines[i].side != other then [lines[i]] else []
    ensures multiset(lines[..i + 1]) == multiset(lines[..i]) + multiset{lines[i]}
    ensures forall l :: l in lines[..i + 1] <==> l in lines[..i] || l == lines[i]
  {
    assert lines[..i + 1] == lines[..i] + [lines[i]] && lines[..i + 1][..i] == lines[..i];
  }

  lemma NoChunksWritten()
    ensures PF.WriteChunks(ViewChunks([])) == []
  {
  }

  lemma WriteOneMore(cs: seq<PatchChunk>, j: nat)
    requires j < |cs|
    ensures PF.WriteChunks(ViewChunks(cs[..j + 1]))
            == PF.WriteChunks(ViewChunks(cs[..j])) + ([PF.WriteHeader(cs[j].View())] + PF.WriteLines(cs[j].lines))
  {
    var views := ViewChunks(cs[..j + 1]);
    assert views[..j] == ViewChunks(cs[..j]) && views[j] == cs[j].View();
  }

  ghost function AllPatches(ps: seq<Patch>): set<Patch> {
    set p | p in ps
  }

  ghost function AllChunks(ps: seq<Patch>): set<PatchChunk>
    reads ps
  {
    set i, j | 0 <= i < |ps| && 0 <= j < |ps[i].chunks| :: ps[i].chunks[j]
  }

  /** The objects show these patches, each object in its own place only. */
  ghost predicate Shows(ps: seq<Patch>, view: seq<PF.Patch>)
    reads ps, AllChunks(ps)
  {
    |ps| == |view| && forall i :: 0 <= i < |ps| ==> ShowsPatch(ps[i], i, view[i])
  }

  ghost predicate ShowsPatch(p: Patch, i: nat, v: PF.Patch)
    reads p, p.chunks
  {
    && p.at == i && p.src == v.src && p.dst == v.dst && |p.chunks| == |v.chunks|
    && forall j :: 0 <= j < |p.chunks| ==> p.chunks[j].at == (i, j) && p.chunks[j].View() == v.chunks[j]
  }

  method StartPatch(patchset: seq<Patch>, name: string, ghost view: seq<PF.Patch>)
    returns (longer: seq<Patch>, currentPatch: Patch)
    requires Shows(patchset, view)
    ensures longer == patchset + [currentPatch] && fresh(currentPatch)
    ensures Shows(longer, view + [PF.Patch(name, "", [])]) && AllChunks(longer) == AllChunks(patchset)
  {
    currentPatch := new Patch(|patchset|);
    longer := patchset + [currentPatch];
    currentPatch.src := name;
    assert forall i :: 0 <= i < |patchset| ==> longer[i] == patchset[i];
  }

  method SetDst(patchset: seq<Patch>, currentPatch: Patch, name: string, ghost view: seq<PF.Patch>)
    requires Shows(patchset, view) && patchset != [] && currentPatch == patchset[|patchset| - 1]
    modifies currentPatch
    ensures Shows(patchset, view[|view| - 1 := view[|view| - 1].(dst := name)])
    ensures AllChunks(patchset) == old(AllChunks(patchset)) && currentPatch.chunks == old(currentPatch.chunks)
  {
    currentPatch.dst := name;
  }

  method StartChunk(patchset: seq<Patch>, currentPatch: Patch, srcPos: nat, dstPos: nat, ghost view: seq<PF.Patch>)
    returns (currentChunk: PatchChunk)
    requires Shows(patchset, view) && patchset != [] && currentPatch == patchset[|patchset| - 1]
    modifies currentPatch
    ensures fresh(currentChunk) && currentPatch.chunks == old(currentPatch.chunks) + [currentChunk]
    ensures var p := view[|view| - 1];
            Shows(patchset, view[|view| - 1 := p.(chunks := p.chunks + [PF.Chunk(srcPos, dstPos, [])])])
    ensures fresh(AllChunks(patchset) - old(AllChunks(patchset)))
  {
    var n := |patchset| - 1;
    currentChunk := new PatchChunk(srcPos, dstPos, (n, |currentPatch.chunks|));
    ghost var chunks0 := currentPatch.chunks;
    currentPatch.chunks := currentPatch.chunks + [currentChunk];
    assert forall i :: 0 <= i < n ==> patchset[i] != currentPatch;
    ghost var p := view[n];
    assert ShowsPatch(currentPatch, n, p.(chunks := p.chunks + [PF.Chunk(srcPos, dstPos, [])]));
    forall i | 0 <= i < n ensures ShowsPatch(patchset[i], i, view[i]) {
    }
  }

  method AddBody(patchset: seq<Patch>, currentChunk: PatchChunk, ghost i: nat, ghost j: nat, l: PF.Line,
                 ghost view: seq<PF.Patch>)
    requires Shows(patchset, view) && i < |patchset| && j < |patchset[i].chunks|
    requires currentChunk == patchset[i].chunks[j]
    modifies currentChunk
    ensures Shows(patchset, PP.AddLine(view, i, j, l))
    ensures AllChunks(patchset) == old(AllChunks(patchset))
  {
    currentChunk.AddLine(l);
  }

  /** The patches read, or None for an exception. */
  datatype Result<T> = Read(value: T) | Raised

  ghost predicate Tracks(ps: seq<Patch>, currentPatch: Patch?, currentChunk: PatchChunk?, st: PP.State)
    reads ps, AllChunks(ps)
  {
    && PP.StateOk(st)
    && Shows(ps, st.patches)
    && currentPatch == (if ps == [] then null else ps[|ps| - 1])
    && currentChunk == (if st.chunk.None? then null else ps[st.chunk.value.0].chunks[st.chunk.value.1])
  }

  method ReadChunkStart(patchset: seq<Patch>, currentPatch: Patch, currentChunk: PatchChunk?, srcPos: nat, dstPos: nat,
                        ghost line: string, ghost st: PP.State) returns (currentChunk': PatchChunk)
    requires Tracks(patchset, currentPatch, currentChunk, st) && PF.Classify(line) == PF.ChunkStart(srcPos, dstPos)
    requires patchset != []
    modifies currentPatch
    ensures PP.Feed(st, line).Ok? && Tracks(patchset, currentPatch, currentChunk', PP.Feed(st, line).state)
    ensures fresh(AllChunks(patchset) - old(AllChunks(patchset)))
  {
    Tracked(patchset, currentPatch, currentChunk, st);
    hide PF.Classify, Shows, Tracks;
    ShapeOf(patchset, st.patches);
    currentChunk' := StartChunk(patchset, currentPatch, srcPos, dstPos, st.patches);
    Tracked(patchset, currentPatch, currentChunk', PP.Feed(st, line).state);
  }

  method ReadBody(patchset: seq<Patch>, currentPatch: Patch?, currentChunk: PatchChunk, l: PF.Line,
                  ghost line: string, ghost st: PP.State)
    requires Tracks(patchset, currentPatch, currentChunk, st) && PF.Classify(line) == PF.Body(l)
    modifies currentChunk
    ensures PP.Feed(st, line).Ok? && Tracks(patchset, currentPatch, currentChunk, PP.Feed(st, line).state)
    ensures AllChunks(patchset) == old(AllChunks(patchset))
  {
    Tracked(patchset, currentPatch, currentChunk, st);
    hide PF.Classify, Shows, Tracks, PP.AddLine;
    ShapeOf(patchset, st.patches);
    AddBody(patchset, currentChunk, st.chunk.value.0, st.chunk.value.1, l, st.patches);
    Tracked(patchset, currentPatch, currentChunk, PP.Feed(st, line).state);
  }

  /** One line of input. */
  method ReadLine(patchset: seq<Patch>, currentPatch: Patch?, currentChunk: PatchChunk?, line: string,
                  ghost st: PP.State)
    returns (ok: bool, patchset': seq<Patch>, currentPatch': Patch?, currentChunk': PatchChunk?)
    requires Tracks(patchset, currentPatch, currentChunk, st)
    modifies AllPatches(patchset), AllChunks(patchset)
    ensures ok == PP.Feed(st, line).Ok?
    ensures ok ==> Tracks(patchset', currentPatch', currentChunk', PP.Feed(st, line).state)
    ensures fresh(AllPatches(patchset') - AllPatches(patchset))
    ensures ok ==> fresh(AllChunks(patchset') - old(AllChunks(patchset)))
  {
    Tracked(patchset, currentPatch, currentChunk, st);
    hide PF.Classify, Shows, Tracks, PP.AddLine;
    ok, patchset', currentPatch', currentChunk' := true, patchset, currentPatch, currentChunk;
    ShapeOf(patchset, st.patches);
    match PF.Classify(line) {
      case SrcFile(name) =>
        patchset', currentPatch' := StartPatch(patchset, name, st.patches);
        Tracked(patchset', currentPatch', currentChunk', PP.Feed(st, line).state);
      case DstFile(name) =>
        if currentPatch == null {
          ok := false;
        } else {
          SetDst(patchset, currentPatch, name, st.patches);
          Tracked(patchset, currentPatch, currentChunk, PP.Feed(st, line).state);
        }
      case ChunkStart(srcPos, dstPos) =>
        if currentPatch == null {
          ok := false;
        } else {
          currentChunk' := ReadChunkStart(patchset, currentPatch, currentChunk, srcPos, dstPos, line, st);
        }
      case Body(l) =>
        if currentChunk == null {
          ok := false;
        } else {
          ReadBody(patchset, currentPatch, currentChunk, l, line, st);
        }
      case NoMatch =>
        ok := false;
    }
  }

  lemma Tracked(ps: seq<Patch>, currentPatch: Patch?, currentChunk: PatchChunk?, st: PP.State)
    ensures Tracks(ps, currentPatch, currentChunk, st) <==>
            && PP.StateOk(st)
            && Shows(ps, st.patches)
            && currentPatch == (if ps == [] then null else ps[|ps| - 1])
            && currentChunk == (if st.chunk.None? then null else ps[st.chunk.value.0].chunks[st.chunk.value.1])
  {
  }

  lemma ShapeOf(ps: seq<Patch>, view: seq<PF.Patch>)
    requires Shows(ps, view)
    ensures |ps| == |view|
    ensures forall i :: 0 <= i < |ps| ==> |ps[i].chunks| == |view[i].chunks|
    ensures forall i, j :: 0 <= i < |ps| && 0 <= j < |ps| && i != j ==> ps[i] != ps[j]
    ensures forall i, j :: 0 <= i < |ps| && 0 <= j < |ps[i].chunks| ==> ps[i].chunks[j] in AllChunks(ps)
  {
  }

  /** `parse_patchset`: it raises exactly when the parser state machine does, and else builds what it builds. */
  method ParsePatchset(generator: seq<string>) returns (r: Result<seq<Patch>>)
    ensures r.Read? <==> PP.Parse(generator).Some?
    ensures r.Read? ==> Shows(r.value, PP.Parse(generator).value)
  {
    NothingShown();
    StartIsRun(generator);
    hide Shows, PP.Run, PP.Feed, PP.Parse, PP.StateOk, Tracks;
    var patchset: seq<Patch> := [];
    var currentPatch: Patch? := null;
    var currentChunk: PatchChunk? := null;
    ghost var st := PP.START;
    for n := 0 to |generator|
      invariant PP.Run(PP.START, generator[..n]) == PP.Ok(st)
      invariant Tracks(patchset, currentPatch, currentChunk, st) && PP.StateOk(st)
      invariant fresh(AllPatches(patchset)) && fresh(AllChunks(patchset))
    {
      RunNext(generator, n, st);
      var ok;
      ok, patchset, currentPatch, currentChunk := ReadLine(patchset, currentPatch, currentChunk, generator[n], st);
      if !ok {
        RaisedFor(generator, n + 1);
        return Raised;
      }
      st := PP.Feed(st, generator[n]).state;
    }
    assert generator[..|generator|] == generator;
    TracksShows(patchset, currentPatch, currentChunk, st);
    ReadFor(generator, st);
    r := Read(patchset);
  }

  lemma StartIsRun(generator: seq<string>)
    ensures generator[..0] == [] && PP.Run(PP.START, []) == PP.Ok(PP.START) && PP.StateOk(PP.START)
    ensures Tracks([], null, null, PP.START)
  {
  }

  lemma RunNext(generator: seq<string>, n: nat, st: PP.State)
    requires n < |generator| && PP.StateOk(st) && PP.Run(PP.START, generator[..n]) == PP.Ok(st)
    ensures PP.Run(PP.START, generator[..n + 1]) == PP.Feed(st, generator[n])
    ensures PP.Feed(st, generator[n]).Ok? ==> PP.StateOk(PP.Feed(st, generator[n]).state)
  {
    hide PP.Feed;
    assert generator[..n + 1][..n] == generator[..n];
  }

  lemma TracksShows(ps: seq<Patch>, currentPatch: Patch?, currentChunk: PatchChunk?, st: PP.State)
    requires Tracks(ps, currentPatch, currentChunk, st)
    ensures Shows(ps, st.patches)
  {
  }

  lemma ReadFor(generator: seq<string>, st: PP.State)
    requires PP.Run(PP.START, generator) == PP.Ok(st)
    ensures PP.Parse(generator) == Some(st.patches)
  {
  }

  lemma NothingShown()
    ensures Shows([], []) && AllChunks([]) == {}
  {
  }

  lemma RaisedFor(generator: seq<string>, n: nat)
    requires n <= |generator| && !PP.Run(PP.START, generator[..n]).Ok?
    ensures PP.Parse(generator).None?
  {
    PP.RunConcat(PP.START, generator[..n], generator[n..]);
    assert generator[..n] + generator[n..] == generator;
  }
}
