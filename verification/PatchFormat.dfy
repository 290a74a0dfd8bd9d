/** The unified-diff text that check-style.py writes and reads, line by line. */
module PatchFormat {
  import opened Options

  datatype Side = Src | Dst | Both

  datatype Line = Line(side: Side, text: string)

  /** `src_pos` and `dst_pos` are what `int` makes of a digit string. */
  datatype Chunk = Chunk(srcPos: nat, dstPos: nat, lines: seq<Line>)

  datatype Patch = Patch(src: string, dst: string, chunks: seq<Chunk>)

  // ---- decimal numbers ----

  function Digit(n: nat): char
    requires n < 10
  {
    (48 + n) as char
  }

  predicate IsDigit(c: char) {
    '0' <= c <= '9'
  }

  function Decimal(n: nat): (s: string)
    ensures s != "" && forall i :: 0 <= i < |s| ==> IsDigit(s[i])
  {
    if n < 10 then [Digit(n)] else Decimal(n / 10) + [Digit(n % 10)]
  }

  function Number(s: string): nat
    requires forall i :: 0 <= i < |s| ==> IsDigit(s[i])
  {
    if s == "" then 0
    else
      assert IsDigit(s[|s| - 1]);
      10 * Number(s[..|s| - 1]) + (s[|s| - 1] as int - 48)
  }

  lemma {:induction false} NumberOfDecimal(n: nat)
    ensures Number(Decimal(n)) == n
  {
    if n < 10 {
    } else {
      NumberOfDecimal(n / 10);
      assert Decimal(n)[..|Decimal(n)| - 1] == Decimal(n / 10);
    }
  }

  function Pow10(k: nat): nat {
    if k == 0 then 1 else 10 * Pow10(k - 1)
  }

  /** The first digit of a number has the greatest weight. */
  lemma {:induction false} LeadingDigit(c: char, s: string)
    requires IsDigit(c) && forall i :: 0 <= i < |s| ==> IsDigit(s[i])
    ensures Number([c] + s) == (c as int - 48) * Pow10(|s|) + Number(s)
    decreases |s|
  {
    var all := [c] + s;
    if s == [] {
      assert all[..0] == [] && all[0] == c;
    } else {
      var n := |s| - 1;
      assert all[..|s|] == [c] + s[..n] && all[|s|] == s[n];
      LeadingDigit(c, s[..n]);
      TenTimes(c as int - 48, Pow10(n));
    }
  }

  lemma TenTimes(d: int, p: int)
    ensures d * (10 * p) == 10 * (d * p)
  {
  }

  lemma {:induction false} NoLeadingZero(n: nat)
    ensures n > 0 ==> Decimal(n)[0] != '0'
  {
    if n < 10 {
    } else {
      NoLeadingZero(n / 10);
    }
  }

  /** Length of the longest prefix of digits, what `[0-9]+` takes when a non-digit must follow. */
  function DigitPrefix(s: string): (n: nat)
    ensures n <= |s| && forall i :: 0 <= i < n ==> IsDigit(s[i])
  {
    if s != "" && IsDigit(s[0]) then 1 + DigitPrefix(s[1..]) else 0
  }

  lemma {:induction false} DigitPrefixOf(digits: string, tail: string)
    requires forall i :: 0 <= i < |digits| ==> IsDigit(digits[i])
    requires tail == "" || !IsDigit(tail[0])
    ensures DigitPrefix(digits + tail) == |digits|
    decreases |digits|
  {
    if digits == "" {
      assert digits + tail == tail;
    } else {
      assert (digits + tail)[1..] == digits[1..] + tail;
      DigitPrefixOf(digits[1..], tail);
    }
  }

  // ---- reading one line ----

  /** What the five `(.*)$` expressions see: the line without its final newline, if it has no other. */
  function Content(line: string): Option<string> {
    var c := if line != "" && line[|line| - 1] == '\n' then line[..|line| - 1] else line;
    if '\n' in c then None else Some(c)
  }

  function AfterPrefix(s: string, prefix: string): Option<string> {
    if prefix <= s then Some(s[|prefix|..]) else None
  }

  /** A number, at least one digit long, followed by `sep`. */
  function TakeNumber(s: string, sep: string): Option<(nat, string)> {
    var n := DigitPrefix(s);
    if n > 0 && sep <= s[n..] then Some((Number(s[..n]), s[n + |sep|..])) else None
  }

  /** The four groups of the expression `^@@ -([0-9]+),([0-9]+) \+([0-9]+),([0-9]+) @@`. */
  function ChunkGroups(line: string): Option<(nat, nat, nat, nat)> {
    match AfterPrefix(line, "@@ -")
    case None => None
    case Some(s0) =>
      match TakeNumber(s0, ",")
      case None => None
      case Some((srcPos, s1)) =>
        match TakeNumber(s1, " +")
        case None => None
        case Some((srcLen, s2)) =>
          match TakeNumber(s2, ",")
          case None => None
          case Some((dstPos, s3)) =>
            match TakeNumber(s3, " @@")
            case None => None
            case Some((dstLen, _)) => Some((srcPos, srcLen, dstPos, dstLen))
  }

  /** The first and the third group; the parser does not use the two lengths. */
  function MatchChunkStart(line: string): Option<(nat, nat)> {
    match ChunkGroups(line)
    case None => None
    case Some((srcPos, _, dstPos, _)) => Some((srcPos, dstPos))
  }

  datatype Class =
    | SrcFile(name: string)
    | DstFile(name: string)
    | ChunkStart(srcPos: nat, dstPos: nat)
    | Body(line: Line)
    | NoMatch

  /** The chain of expressions in the order `parse_patchset` tries them. */
  function Classify(line: string): Class {
    var c := Content(line);
    var starts := (prefix: string) => c.Some? && prefix <= c.value;
    if starts("--- ") then SrcFile(c.value[4..])
    else if starts("+++ ") then DstFile(c.value[4..])
    else match MatchChunkStart(line)
      case Some((srcPos, dstPos)) => ChunkStart(srcPos, dstPos)
      case None =>
        if starts("-") then Body(Line(Src, c.value[1..]))
        else if starts("+") then Body(Line(Dst, c.value[1..]))
        else if starts(" ") then Body(Line(Both, c.value[1..]))
        else NoMatch
  }

  // ---- writing ----

  function Mark(side: Side): string {
    match side
    case Src => "-"
    case Dst => "+"
    case Both => " "
  }

  function WriteLine(l: Line): string {
    Mark(l.side) + l.text + "\n"
  }

  function CountSide(lines: seq<Line>, other: Side): nat {
    if lines == [] then 0
    else CountSide(lines[..|lines| - 1], other) + if lines[|lines| - 1].side != other then 1 else 0
  }

  /** The lines not of the side `other` alone, in order. */
  function SideLines(lines: seq<Line>, other: Side): seq<Line> {
    if lines == [] then []
    else
      var l := lines[|lines| - 1];
      SideLines(lines[..|lines| - 1], other) + if l.side != other then [l] else []
  }

  function SrcLen(c: Chunk): nat { CountSide(c.lines, Dst) }

  function DstLen(c: Chunk): nat { CountSide(c.lines, Src) }

  /** The format `@@ -%d,%d +%d,%d @@` and a newline. */
  function Header(srcPos: nat, srcLen: nat, dstPos: nat, dstLen: nat): string {
    var dst := Decimal(dstPos) + ("," + (Decimal(dstLen) + " @@\n"));
    var src := Decimal(srcPos) + ("," + (Decimal(srcLen) + (" +" + dst)));
    "@@ -" + src
  }

  function WriteHeader(c: Chunk): string {
    Header(c.srcPos, SrcLen(c), c.dstPos, DstLen(c))
  }

  function WriteLines(lines: seq<Line>): seq<string> {
    if lines == [] then [] else WriteLines(lines[..|lines| - 1]) + [WriteLine(lines[|lines| - 1])]
  }

  function WriteChunks(chunks: seq<Chunk>): seq<string> {
    if chunks == [] then []
    else
      var c := chunks[|chunks| - 1];
      WriteChunks(chunks[..|chunks| - 1]) + [WriteHeader(c)] + WriteLines(c.lines)
  }

  function WritePatch(p: Patch): seq<string> {
    ["--- " + p.src + "\n", "+++ " + p.dst + "\n"] + WriteChunks(p.chunks)
  }

  function WriteAll(ps: seq<Patch>): seq<string> {
    if ps == [] then [] else WriteAll(ps[..|ps| - 1]) + WritePatch(ps[|ps| - 1])
  }

  // ---- how any line is read ----

  /** A line is this text, with or without a newline at its end. */
  predicate IsText(line: string, text: string) {
    '\n' !in text && (line == text || line == text + "\n")
  }

  lemma ContentIff(line: string, text: string)
    ensures Content(line) == Some(text) <==> IsText(line, text)
  {
    if IsText(line, text) && line == text + "\n" {
      assert line[..|line| - 1] == text;
    }
    if IsText(line, text) && line == text && line != "" {
      assert line[|line| - 1] in text;
    }
    if Content(line) == Some(text) && line != text {
      assert line == text + "\n";
    }
  }

  lemma SrcFileIff(line: string, name: string)
    ensures Classify(line) == SrcFile(name) <==> IsText(line, "--- " + name)
  {
    ContentIff(line, "--- " + name);
    hide IsText, MatchChunkStart;
    if Classify(line) == SrcFile(name) {
      assert Content(line).value == "--- " + name;
    }
  }

  lemma DstFileIff(line: string, name: string)
    ensures Classify(line) == DstFile(name) <==> IsText(line, "+++ " + name)
  {
    var c := "+++ " + name;
    ContentIff(line, c);
    hide IsText, MatchChunkStart;
    assert c[0] == '+' && "--- "[0] == '-';
    assert !("--- " <= c) && c[4..] == name;
    if Classify(line) == DstFile(name) {
      assert Content(line).value == "+++ " + name;
    }
  }

  ghost predicate IsNumber(digits: string, n: nat) {
    digits != "" && (forall i :: 0 <= i < |digits| ==> IsDigit(digits[i])) && Number(digits) == n
  }

  lemma PrefixSplit(s: string, prefix: string)
    requires prefix <= s
    ensures s == prefix + s[|prefix|..]
  {
  }

  lemma TakeNumberIff(s: string, sep: string, n: nat, rest: string)
    requires sep != "" && !IsDigit(sep[0])
    ensures TakeNumber(s, sep) == Some((n, rest))
            <==> exists digits :: IsNumber(digits, n) && s == digits + (sep + rest)
  {
    if TakeNumber(s, sep) == Some((n, rest)) {
      var k := DigitPrefix(s);
      PrefixSplit(s[k..], sep);
      assert s[k..][|sep|..] == s[k + |sep|..];
      assert s == s[..k] + s[k..];
      assert IsNumber(s[..k], n);
    }
    if digits :| IsNumber(digits, n) && s == digits + (sep + rest) {
      DigitPrefixOf(digits, sep + rest);
      assert s[..|digits|] == digits && s[|digits|..] == sep + rest;
      assert s[|digits| + |sep|..] == rest;
    }
  }

  /** A chunk start is four numbers between the fixed pieces of the header; anything may follow. */
  ghost predicate IsChunkStart(line: string, a: nat, b: nat, c: nat, d: nat, tail: string) {
    exists da, db, dc, dd :: IsNumber(da, a) && IsNumber(db, b) && IsNumber(dc, c) && IsNumber(dd, d)
      && line == "@@ -" + (da + ("," + (db + (" +" + (dc + ("," + (dd + (" @@" + tail))))))))
  }

  lemma ChunkGroupsIff(line: string, a: nat, b: nat, c: nat, d: nat)
    ensures ChunkGroups(line) == Some((a, b, c, d)) <==> exists tail :: IsChunkStart(line, a, b, c, d, tail)
  {
    if ChunkGroups(line) == Some((a, b, c, d)) {
      GroupsAreChunkStart(line, a, b, c, d);
    }
    if tail :| IsChunkStart(line, a, b, c, d, tail) {
      ChunkStartHasGroups(line, a, b, c, d, tail);
    }
  }

  lemma GroupsAreChunkStart(line: string, a: nat, b: nat, c: nat, d: nat)
    requires ChunkGroups(line) == Some((a, b, c, d))
    ensures exists tail :: IsChunkStart(line, a, b, c, d, tail)
  {
    hide TakeNumber, IsNumber;
    var s0 := line[4..];
    assert line == "@@ -" + s0;
    var s1 := TakeNumber(s0, ",").value.1;
    var s2 := TakeNumber(s1, " +").value.1;
    var s3 := TakeNumber(s2, ",").value.1;
    var tail := TakeNumber(s3, " @@").value.1;
    TakeNumberIff(s0, ",", a, s1);
    TakeNumberIff(s1, " +", b, s2);
    TakeNumberIff(s2, ",", c, s3);
    TakeNumberIff(s3, " @@", d, tail);
    assert IsChunkStart(line, a, b, c, d, tail);
  }

  lemma ChunkStartHasGroups(line: string, a: nat, b: nat, c: nat, d: nat, tail: string)
    requires IsChunkStart(line, a, b, c, d, tail)
    ensures ChunkGroups(line) == Some((a, b, c, d))
  {
    hide TakeNumber, IsNumber;
    var da, db, dc, dd :| IsNumber(da, a) && IsNumber(db, b) && IsNumber(dc, c) && IsNumber(dd, d)
      && line == "@@ -" + (da + ("," + (db + (" +" + (dc + ("," + (dd + (" @@" + tail))))))));
    var s3 := dd + (" @@" + tail);
    var s2 := dc + ("," + s3);
    var s1 := db + (" +" + s2);
    var s0 := da + ("," + s1);
    assert line[|"@@ -"|..] == s0;
    TakeNumberIff(s0, ",", a, s1);
    TakeNumberIff(s1, " +", b, s2);
    TakeNumberIff(s2, ",", c, s3);
    TakeNumberIff(s3, " @@", d, tail);
  }

  lemma BodyOfContent(line: string, c: string, l: Line)
    requires Content(line) == Some(c) && c != ""
    ensures Classify(line) == Body(l)
            <==> && !("--- " <= c) && !("+++ " <= c) && MatchChunkStart(line).None?
                 && c[0] == MarkChar(l.side) && c[1..] == l.text
  {
    hide Content, MatchChunkStart;
    assert "-" <= c <==> c[0] == '-' by { OneCharPrefix('-', c); }
    assert "+" <= c <==> c[0] == '+' by { OneCharPrefix('+', c); }
    assert " " <= c <==> c[0] == ' ' by { OneCharPrefix(' ', c); }
  }

  lemma OneCharPrefix(a: char, c: string)
    requires c != ""
    ensures [a] <= c <==> c[0] == a
  {
  }

  /** A body line is a mark and its text, unless it begins like a file header. */
  lemma BodyIff(line: string, l: Line)
    ensures Classify(line) == Body(l)
            <==> IsText(line, Mark(l.side) + l.text) && !("--- " <= line) && !("+++ " <= line)
  {
    var c := Mark(l.side) + l.text;
    assert Mark(l.side) == [MarkChar(l.side)];
    assert c[0] == MarkChar(l.side) && c[1..] == l.text;
    ContentIff(line, c);
    hide Mark, Content, MatchChunkStart, Classify;
    if IsText(line, c) {
      HeaderPrefix(line, c, "--- ");
      HeaderPrefix(line, c, "+++ ");
      NoChunkStart(line);
      BodyOfContent(line, c, l);
    }
    if Classify(line) == Body(l) {
      BodyHasContent(line, l);
      var d := Content(line).value;
      BodyOfContent(line, d, l);
      assert d == [d[0]] + d[1..] == c;
    }
  }

  lemma BodyHasContent(line: string, l: Line)
    requires Classify(line) == Body(l)
    ensures Content(line).Some? && Content(line).value != ""
  {
    hide Content, MatchChunkStart;
  }

  lemma HeaderPrefix(line: string, text: string, prefix: string)
    requires line == text || line == text + "\n"
    ensures '\n' !in prefix ==> (prefix <= text <==> prefix <= line)
  {
    if prefix <= line && |prefix| > |text| {
      assert prefix[|text|] == line[|text|];
    }
    if prefix <= line && |prefix| <= |text| {
      assert line[..|prefix|] == text[..|prefix|];
    }
    if prefix <= text {
      assert line[..|prefix|] == text[..|prefix|];
    }
  }

  // ---- how written lines are read ----

  predicate OneLine(s: string) {
    '\n' !in s
  }

  lemma ContentOf(s: string)
    requires OneLine(s)
    ensures Content(s + "\n") == Some(s)
  {
    assert (s + "\n")[..|s + "\n"| - 1] == s;
  }

  /** A written patch begins with its two names behind their prefixes. */
  lemma PatchHeaders(p: Patch)
    ensures |WritePatch(p)| == 2 + |WriteChunks(p.chunks)|
    ensures WritePatch(p)[0] == "--- " + p.src + "\n" && WritePatch(p)[1] == "+++ " + p.dst + "\n"
    ensures WritePatch(p)[2..] == WriteChunks(p.chunks)
  {
  }

  lemma ClassifySrcFile(name: string)
    requires OneLine(name)
    ensures Classify("--- " + name + "\n") == SrcFile(name)
  {
    var c := "--- " + name;
    ContentOf(c);
    hide MatchChunkStart, Content;
    assert c[4..] == name;
  }

  lemma ClassifyDstFile(name: string)
    requires OneLine(name)
    ensures Classify("+++ " + name + "\n") == DstFile(name)
  {
    var c := "+++ " + name;
    ContentOf(c);
    hide MatchChunkStart, Content;
    assert c[0] == '+' && "--- "[0] == '-';
    assert !("--- " <= c);
    assert c[4..] == name;
  }

  /** A removed line that looks like a source header, or an added one that looks like a destination header. */
  predicate Ambiguous(l: Line) {
    (l.side == Src && "-- " <= l.text) || (l.side == Dst && "++ " <= l.text)
  }

  lemma PrefixCons(a: char, prefix: string, b: char, s: string)
    ensures [a] + prefix <= [b] + s <==> a == b && prefix <= s
  {
    var n := |prefix|;
    if n <= |s| {
      assert ([b] + s)[..n + 1] == [b] + s[..n];
      assert ([a] + prefix)[0] == a && ([a] + prefix)[1..] == prefix;
      assert ([b] + s[..n])[0] == b && ([b] + s[..n])[1..] == s[..n];
    }
  }

  function MarkChar(side: Side): char {
    match side
    case Src => '-'
    case Dst => '+'
    case Both => ' '
  }

  lemma ClassifyBody(l: Line)
    requires OneLine(l.text)
    ensures !Ambiguous(l) ==> Classify(WriteLine(l)) == Body(l)
    ensures Ambiguous(l) ==> !Classify(WriteLine(l)).Body?
  {
    var m := MarkChar(l.side);
    var c := [m] + l.text;
    ContentOf(c);
    assert WriteLine(l) == c + "\n";
    assert c[1..] == l.text;
    PrefixCons('-', "-- ", m, l.text);
    PrefixCons('+', "++ ", m, l.text);
    assert "--- " == ['-'] + "-- " && "+++ " == ['+'] + "++ ";
    assert WriteLine(l)[0] == m != '@';
    NoChunkStart(WriteLine(l));
    PrefixCons('-', "", m, l.text);
    PrefixCons('+', "", m, l.text);
    PrefixCons(' ', "", m, l.text);
    hide MatchChunkStart, Content, WriteLine, OneLine;
    assert Content(WriteLine(l)) == Some(c);
  }

  lemma NoChunkStart(line: string)
    requires line != "" && line[0] != '@'
    ensures MatchChunkStart(line).None?
  {
    assert !("@@ -" <= line);
  }

  lemma TakeWritten(n: nat, sep: string, tail: string)
    requires sep != "" && !IsDigit(sep[0])
    ensures TakeNumber(Decimal(n) + (sep + tail), sep) == Some((n, tail))
  {
    var d := Decimal(n);
    var s := d + (sep + tail);
    DigitPrefixOf(d, sep + tail);
    NumberOfDecimal(n);
    assert s[..|d|] == d && s[|d|..] == sep + tail;
    assert s[|d| + |sep|..] == tail;
  }

  lemma MatchHeader(a: nat, b: nat, c: nat, d: nat)
    ensures ChunkGroups(Header(a, b, c, d)) == Some((a, b, c, d))
  {
    hide Decimal, TakeNumber;
    var t3 := Decimal(d) + " @@\n";
    var t2 := Decimal(c) + ("," + t3);
    var t1 := Decimal(b) + (" +" + t2);
    var t0 := Decimal(a) + ("," + t1);
    assert Header(a, b, c, d)[|"@@ -"|..] == t0;
    TakeWritten(a, ",", t1);
    TakeWritten(b, " +", t2);
    TakeWritten(c, ",", t3);
    assert " @@\n" == " @@" + "\n";
    TakeWritten(d, " @@", "\n");
  }

  /** The positions in a list of lines of those that are not of the side `other` alone. */
  ghost function OnSide(lines: seq<Line>, other: Side): set<nat> {
    set i | 0 <= i < |lines| && lines[i].side != other
  }

  lemma OnSideStep(lines: seq<Line>, other: Side)
    requires lines != []
    ensures var n := |lines| - 1;
            OnSide(lines, other) == OnSide(lines[..n], other) + if lines[n].side != other then {n} else {}
    ensures |lines| - 1 !in OnSide(lines[..|lines| - 1], other)
  {
  }

  lemma {:induction false} CountSideIs(lines: seq<Line>, other: Side)
    ensures CountSide(lines, other) == |OnSide(lines, other)|
    decreases |lines|
  {
    if lines == [] {
      assert OnSide(lines, other) == {};
    } else {
      var n := |lines| - 1;
      hide OnSide;
      CountSideIs(lines[..n], other);
      OnSideStep(lines, other);
    }
  }

  /**
   * A written chunk header shows the source position and the number of lines on the source side, then the same of the
   * destination.
   */
  lemma HeaderGroups(c: Chunk)
    ensures ChunkGroups(WriteHeader(c))
            == Some((c.srcPos, |OnSide(c.lines, Dst)|, c.dstPos, |OnSide(c.lines, Src)|))
  {
    hide ChunkGroups, Header, CountSide, OnSide;
    MatchHeader(c.srcPos, SrcLen(c), c.dstPos, DstLen(c));
    CountSideIs(c.lines, Dst);
    CountSideIs(c.lines, Src);
  }

  lemma ClassifyHeader(c: Chunk)
    ensures Classify(WriteHeader(c)) == ChunkStart(c.srcPos, c.dstPos)
  {
    hide ChunkGroups, Decimal;
    MatchHeader(c.srcPos, SrcLen(c), c.dstPos, DstLen(c));
    assert WriteHeader(c)[0] == '@';
  }
}
