/** From the written text of a patch list back to the list, through the lines that iterating over a file yields. */
module PatchText {
  import opened Options
  import opened PatchFormat
  import opened PatchParser

  function Join(lines: seq<string>): string {
    if lines == [] then "" else lines[0] + Join(lines[1..])
  }

  /** Length of the part of a text before its first newline. */
  function LineLength(text: string): (n: nat)
    ensures n <= |text| && '\n' !in text[..n] && (n < |text| ==> text[n] == '\n')
  {
    if text == "" || text[0] == '\n' then 0
    else
      var n := LineLength(text[1..]);
      assert text[..n + 1] == [text[0]] + text[1..][..n];
      n + 1
  }

  /** Lines with their newlines; the last one may lack it. */
  function Split(text: string): seq<string> {
    if text == "" then []
    else
      var n := LineLength(text);
      if n == |text| then [text] else [text[..n + 1]] + Split(text[n + 1..])
  }

  lemma {:induction false} FirstNewline(text: string, k: nat)
    requires k < |text| && text[k] == '\n' && forall i :: 0 <= i < k ==> text[i] != '\n'
    ensures LineLength(text) == k
    decreases k
  {
    if k == 0 {
    } else {
      FirstNewline(text[1..], k - 1);
    }
  }

  predicate Terminated(line: string) {
    line != "" && line[|line| - 1] == '\n' && OneLine(line[..|line| - 1])
  }

  /** Nothing of a text is lost between its lines, and only the last line can lack its newline. */
  lemma {:induction false} JoinOfSplit(text: string)
    ensures Join(Split(text)) == text
    ensures forall k :: 0 <= k < |Split(text)| ==>
              Split(text)[k] != "" && (k < |Split(text)| - 1 ==> Terminated(Split(text)[k]))
    decreases |text|
  {
    if text == "" {
    } else {
      var n := LineLength(text);
      if n == |text| {
        assert [text][1..] == [] && text + "" == text;
      } else {
        var line, rest := text[..n + 1], text[n + 1..];
        JoinOfSplit(rest);
        assert line[..n] == text[..n];
        assert ([line] + Split(rest))[1..] == Split(rest);
        assert line + rest == text;
      }
    }
  }

  lemma {:induction false} SplitOfJoin(lines: seq<string>)
    requires forall k :: 0 <= k < |lines| ==> Terminated(lines[k])
    ensures Split(Join(lines)) == lines
    decreases |lines|
  {
    if lines == [] {
    } else {
      var line, rest := lines[0], Join(lines[1..]);
      var text, n := line + rest, LineLength(line + rest);
      SplitOfJoin(lines[1..]);
      forall i | 0 <= i < |line| - 1 ensures text[i] != '\n' {
        assert text[i] == line[..|line| - 1][i];
      }
      FirstNewline(text, |line| - 1);
      assert text[..n + 1] == line && text[n + 1..] == rest;
    }
  }

  lemma {:induction false} LinesTerminated(lines: seq<Line>)
    requires LinesSingle(lines)
    ensures forall k :: 0 <= k < |WriteLines(lines)| ==> Terminated(WriteLines(lines)[k])
    decreases |lines|
  {
    if lines == [] {
    } else {
      LinesTerminated(lines[..|lines| - 1]);
      var l := lines[|lines| - 1];
      assert WriteLine(l)[..|WriteLine(l)| - 1] == Mark(l.side) + l.text;
    }
  }

  lemma DecimalOneLine(n: nat)
    ensures OneLine(Decimal(n))
  {
    var d := Decimal(n);
    assert forall i :: 0 <= i < |d| ==> IsDigit(d[i]) && d[i] != '\n';
  }

  lemma HeaderTerminated(a: nat, b: nat, c: nat, d: nat)
    ensures Terminated(Header(a, b, c, d))
  {
    hide Decimal;
    DecimalOneLine(a);
    DecimalOneLine(b);
    DecimalOneLine(c);
    DecimalOneLine(d);
    var dst := Decimal(c) + ("," + (Decimal(d) + " @@"));
    var src := Decimal(a) + ("," + (Decimal(b) + (" +" + dst)));
    assert Decimal(d) + " @@\n" == (Decimal(d) + " @@") + "\n";
    assert Header(a, b, c, d) == ("@@ -" + src) + "\n";
    assert OneLine("@@ -" + src);
  }

  lemma {:induction false} ChunksTerminated(chunks: seq<Chunk>)
    requires ChunksSingle(chunks)
    ensures forall k :: 0 <= k < |WriteChunks(chunks)| ==> Terminated(WriteChunks(chunks)[k])
    decreases |chunks|
  {
    hide Terminated, Header, WriteLines;
    if chunks == [] {
    } else {
      var c := chunks[|chunks| - 1];
      ChunksTerminated(chunks[..|chunks| - 1]);
      HeaderTerminated(c.srcPos, SrcLen(c), c.dstPos, DstLen(c));
      LinesTerminated(c.lines);
    }
  }

  lemma NameTerminated(prefix: string, name: string)
    requires OneLine(prefix) && OneLine(name)
    ensures Terminated(prefix + name + "\n")
  {
    assert (prefix + name + "\n")[..|prefix + name|] == prefix + name;
  }

  lemma {:induction false} AllTerminated(ps: seq<Patch>)
    requires SingleLines(ps)
    ensures forall k :: 0 <= k < |WriteAll(ps)| ==> Terminated(WriteAll(ps)[k])
    decreases |ps|
  {
    hide Terminated, WriteChunks;
    if ps == [] {
    } else {
      var p := ps[|ps| - 1];
      AllTerminated(ps[..|ps| - 1]);
      NameTerminated("--- ", p.src);
      NameTerminated("+++ ", p.dst);
      ChunksTerminated(p.chunks);
    }
  }

  /** The round trip through text: it works if and only if no line can be taken for a file header. */
  lemma TextRoundTripIff(ps: seq<Patch>)
    requires SingleLines(ps)
    ensures Parse(Split(Join(WriteAll(ps)))) == Some(ps) <==> Unambiguous(ps)
  {
    AllTerminated(ps);
    SplitOfJoin(WriteAll(ps));
    RoundTripIff(ps);
  }
}
