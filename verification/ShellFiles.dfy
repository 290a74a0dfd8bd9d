/** File and process bookkeeping of `Pipeline.run`, checked by an auditor that reads the events in order. */
module ShellFiles {
  import opened Options
  import opened ShellParse
  import opened ShellRun

  /** What is open and what is running, what ever was, and whether every event so far was in order. */
  datatype Ledger = Ledger(open: set<File>, running: set<nat>, everOpen: set<File>, everRun: set<nat>, ok: bool)

  const EMPTY := Ledger({}, {}, {}, {}, true)

  predicate NewFile(l: Ledger, file: File) {
    forall f :: f in l.everOpen ==> f.id != file.id
  }

  /** The files a process is given are open, and the process it is fed by has not been waited for. */
  predicate Provided(l: Ledger, s: Streams) {
    && (s.stdin.InHandle? && s.stdin.h.FileHandle? ==> s.stdin.h.file in l.open)
    && (s.stdin.InPipe? ==> s.stdin.proc in l.running)
    && (s.stdout.OutHandle? && s.stdout.h.FileHandle? ==> s.stdout.h.file in l.open)
    && (s.stderr.ErrHandle? && s.stderr.h.FileHandle? ==> s.stderr.h.file in l.open)
  }

  /**
   * A number is opened or launched once only; only an open file is handed to a process or closed and only a running
   * process read from or waited for; and when a group's status is looked at, all its processes have been waited for
   * and no file is open.
   */
  function Record(l: Ledger, e: Event): Ledger {
    match e
    case Opened(file) =>
      l.(open := l.open + {file}, everOpen := l.everOpen + {file}, ok := l.ok && NewFile(l, file))
    case Launched(p, _, stdin, stdout, stderr, _, _) =>
      l.(running := l.running + {p}, everRun := l.everRun + {p},
         ok := l.ok && p !in l.everRun && Provided(l, Streams(stdin, stdout, stderr)))
    case Waited(p) => l.(running := l.running - {p}, ok := l.ok && p in l.running)
    case Closed(file) => l.(open := l.open - {file}, ok := l.ok && file in l.open)
    case Decided(_) => l.(ok := l.ok && l.open == {} && l.running == {})
  }

  function Audit(l: Ledger, events: seq<Event>): Ledger {
    if events == [] then l else Record(Audit(l, events[..|events| - 1]), events[|events| - 1])
  }

  lemma {:induction false} AuditConcat(l: Ledger, a: seq<Event>, b: seq<Event>)
    ensures Audit(l, a + b) == Audit(Audit(l, a), b)
    decreases |b|
  {
    if b == [] {
      assert a + b == a;
    } else {
      assert (a + b)[..|a + b| - 1] == a + b[..|b| - 1];
      AuditConcat(l, a, b[..|b| - 1]);
    }
  }

  lemma {:induction false} OkBefore(l: Ledger, a: seq<Event>, b: seq<Event>)
    requires Audit(l, a + b).ok
    ensures Audit(l, a).ok
    decreases |b|
  {
    if b == [] {
      assert a + b == a;
    } else {
      assert (a + b)[..|a + b| - 1] == a + b[..|b| - 1];
      OkBefore(l, a, b[..|b| - 1]);
    }
  }

  ghost function FilesOf(handles: seq<Handle>): set<File> {
    set h | h in handles && h.FileHandle? :: h.file
  }

  ghost predicate NumberedBelow(files: set<File>, next: nat) {
    forall f :: f in files ==> f.id < next
  }

  ghost predicate DistinctFiles(files: seq<Handle>) {
    forall i, j :: 0 <= i < j < |files| && files[i].FileHandle? ==> files[i] != files[j]
  }

  ghost predicate DistinctProcs(procs: seq<nat>) {
    forall i, j :: 0 <= i < j < |procs| ==> procs[i] != procs[j]
  }

  /** The ledger at a point where the loop stands at machine `m`. */
  ghost predicate Linked(l: Ledger, m: Machine) {
    && MachineOk(m) && l.ok
    && l.open == FilesOf(m.files) && DistinctFiles(m.files)
    && l.running == (set p | p in m.procs) && DistinctProcs(m.procs)
    && NumberedBelow(l.everOpen, m.fileCount)
    && (forall p :: p in l.everRun ==> p < m.procCount)
    && l.open <= l.everOpen && l.running <= l.everRun
  }

  // ---- opening and launching ----

  ghost predicate OpensOne<T>(s: Stream<T>, next: nat) {
    || (s.events == [] && FilesOf(s.files) == {} && |s.files| <= 1 && s.next == next)
    || (s.next == next + 1 && |s.events| == 1 && s.events[0].Opened? && s.events[0].file.id == next
        && s.files == [FileHandle(s.events[0].file)])
  }

  lemma StreamsOpenOne(cmd: Node, feeder: Option<nat>, next: nat)
    requires cmd.Command?
    ensures OpensOne(OpenStdin(cmd.stdin, feeder, next), next)
    ensures OpensOne(OpenStdout(cmd.stdout, next), next)
    ensures OpensOne(OpenStderr(cmd.stderr, next), next)
  {
  }

  lemma AuditStream<T>(l: Ledger, s: Stream<T>, next: nat)
    requires OpensOne(s, next) && l.ok && NumberedBelow(l.everOpen, next)
    ensures var r := Audit(l, s.events);
            && r == l.(open := l.open + FilesOf(s.files), everOpen := l.everOpen + FilesOf(s.files))
            && (forall f :: f in FilesOf(s.files) ==> next <= f.id < s.next)
            && NumberedBelow(r.everOpen, s.next)
            && DistinctFiles(s.files)
  {
    if s.events == [] {
    } else {
      assert s.events[..0] == [];
      assert FilesOf(s.files) == {s.events[0].file};
    }
  }

  lemma JoinFiles(a: seq<Handle>, b: seq<Handle>, next: nat)
    requires DistinctFiles(a) && DistinctFiles(b)
    requires NumberedBelow(FilesOf(a), next) && forall f :: f in FilesOf(b) ==> f.id >= next
    ensures DistinctFiles(a + b) && FilesOf(a + b) == FilesOf(a) + FilesOf(b)
  {
    forall i, j | 0 <= i < j < |a + b| && (a + b)[i].FileHandle? ensures (a + b)[i] != (a + b)[j] {
      if i < |a| <= j && (a + b)[j].FileHandle? {
        assert a[i].FileHandle? ==> a[i].file in FilesOf(a);
        assert b[j - |a|].file in FilesOf(b);
      }
    }
  }

  lemma AuditOpening(l: Ledger, cmd: Node, feeder: Option<nat>, next: nat)
    requires cmd.Command? && l.ok && NumberedBelow(l.everOpen, next)
    ensures var o := OpenAll(cmd, feeder, next);
            && Audit(l, o.events) == l.(open := l.open + FilesOf(o.files), everOpen := l.everOpen + FilesOf(o.files))
            && (forall f :: f in FilesOf(o.files) ==> next <= f.id < o.next)
            && next <= o.next
            && DistinctFiles(o.files)
  {
    hide OpenStdin, OpenStdout, OpenStderr, Audit, FilesOf, DistinctFiles;
    var i := OpenStdin(cmd.stdin, feeder, next);
    StreamsOpenOne(cmd, feeder, next);
    AuditStream(l, i, next);
    var l1 := Audit(l, i.events);
    var o := OpenStdout(cmd.stdout, i.next);
    StreamsOpenOne(cmd, feeder, i.next);
    AuditStream(l1, o, i.next);
    var l2 := Audit(l1, o.events);
    var e := OpenStderr(cmd.stderr, o.next);
    StreamsOpenOne(cmd, feeder, o.next);
    AuditStream(l2, e, o.next);
    AuditConcat(l, i.events, o.events);
    AuditConcat(l, i.events + o.events, e.events);
    JoinFiles(i.files, o.files, i.next);
    JoinFiles(i.files + o.files, e.files, o.next);
    var a, b, c := FilesOf(i.files), FilesOf(o.files), FilesOf(e.files);
    assert l.open + a + b + c == l.open + (a + b + c);
    assert l.everOpen + a + b + c == l.everOpen + (a + b + c);
  }

  /** The streams of a command are the files just opened for it or the pipe from its feeder. */
  lemma StreamsListed(cmd: Node, feeder: Option<nat>, next: nat)
    requires cmd.Command?
    ensures var o := OpenAll(cmd, feeder, next);
            && (o.target.stdin.InHandle? ==> o.target.stdin.h in o.files)
            && (o.target.stdin.InPipe? ==> feeder == Some(o.target.stdin.proc))
            && (o.target.stdout.OutHandle? ==> o.target.stdout.h in o.files)
            && (o.target.stderr.ErrHandle? ==> o.target.stderr.h in o.files)
  {
  }

  lemma LaunchStaysLinked(l: Ledger, m: Machine)
    requires Linked(l, m) && m.nodes != [] && m.nodes[0].Command?
    ensures Linked(Audit(l, LaunchEvents(m)), AfterLaunch(m))
  {
    hide OpenAll, DistinctFiles;
    var cmd := m.nodes[0];
    var o := OpenAll(cmd, Feeder(m), m.fileCount);
    AuditOpening(l, cmd, Feeder(m), m.fileCount);
    StreamsListed(cmd, Feeder(m), m.fileCount);
    var e := LaunchEvent(cmd, o.target, m.procCount, m.cwd);
    AuditConcat(l, o.events, [e]);
    assert Provided(Audit(l, o.events), o.target);
    assert [e][..0] == [];
    JoinFiles(m.files, o.files, m.fileCount);
    var m1 := AfterLaunch(m);
    assert (set p | p in m1.procs) == (set p | p in m.procs) + {m.procCount};
    assert DistinctProcs(m1.procs);
  }

  // ---- finishing a group ----

  lemma {:induction false} AuditWaits(l: Ledger, procs: seq<nat>)
    requires l.ok && DistinctProcs(procs) && forall p :: p in procs ==> p in l.running
    ensures Audit(l, Waits(procs)) == l.(running := l.running - (set p | p in procs))
    decreases |procs|
  {
    if procs != [] {
      var front, p := procs[..|procs| - 1], procs[|procs| - 1];
      AuditWaits(l, front);
      AuditConcat(l, Waits(front), [Waited(p)]);
      assert [Waited(p)][..0] == [];
      assert (set q | q in procs) == (set q | q in front) + {p};
      assert l.running - (set q | q in procs) == l.running - (set q | q in front) - {p};
    } else {
      assert l.running - (set p | p in procs) == l.running;
    }
  }

  lemma FilesFront(front: seq<Handle>, h: Handle)
    requires DistinctFiles(front + [h])
    ensures DistinctFiles(front)
    ensures FilesOf(front + [h]) == FilesOf(front) + FilesOf([h]) && FilesOf(front) !! FilesOf([h])
  {
    var all := front + [h];
    assert forall i :: 0 <= i < |front| ==> all[i] == front[i];
    assert all[|front|] == h;
  }

  lemma AuditClose(l: Ledger, h: Handle)
    requires l.ok && FilesOf([h]) <= l.open
    ensures Audit(l, CloseEvents(h)) == l.(open := l.open - FilesOf([h]))
  {
    if h.FileHandle? {
      assert [Closed(h.file)][..0] == [];
      assert h in [h];
      assert FilesOf([h]) == {h.file};
    } else {
      assert FilesOf([h]) == {};
      assert l.open - {} == l.open;
    }
  }

  lemma {:induction false} AuditCloses(l: Ledger, files: seq<Handle>)
    requires l.ok && DistinctFiles(files) && FilesOf(files) <= l.open
    ensures Audit(l, Closes(files)) == l.(open := l.open - FilesOf(files))
    decreases |files|
  {
    hide Audit, CloseEvents, FilesOf, DistinctFiles;
    if files == [] {
      NoFiles(l);
    } else {
      var front, h := files[..|files| - 1], files[|files| - 1];
      assert files == front + [h];
      FilesFront(front, h);
      AuditCloses(l, front);
      var l1 := l.(open := l.open - FilesOf(front));
      AuditClose(l1, h);
      AuditConcat(l, Closes(front), CloseEvents(h));
      assert l.open - FilesOf(files) == l1.open - FilesOf([h]);
    }
  }

  lemma NoFiles(l: Ledger)
    ensures FilesOf([]) == {} && Audit(l, []) == l && l.open - FilesOf([]) == l.open
  {
  }

  /** After a group everything is closed and waited for, before its status is looked at. */
  lemma GroupEndSettles(l: Ledger, m: Machine, exits: nat -> int)
    requires Linked(l, m)
    ensures Audit(l, GroupEnd(m.procs, m.files, exits)) == l.(open := {}, running := {})
  {
    hide Audit, Waits, Closes, FilesOf, DistinctFiles, DistinctProcs;
    var status := GroupStatus(m.procs, exits);
    AuditWaits(l, m.procs);
    var l1 := l.(running := {});
    assert l.running - (set p | p in m.procs) == {};
    AuditCloses(l1, m.files);
    assert l1.open - FilesOf(m.files) == {};
    AuditConcat(l, Waits(m.procs), Closes(m.files));
    AuditConcat(l, Waits(m.procs) + Closes(m.files), [Decided(status)]);
    AuditDecided(l1.(open := {}), status);
  }

  lemma AuditDecided(l: Ledger, status: int)
    requires l.ok && l.open == {} && l.running == {}
    ensures Audit(l, [Decided(status)]) == l
  {
    assert [Decided(status)][..0] == [];
  }

  // ---- the whole run ----

  ghost predicate Settled(l: Ledger, r: (seq<Event>, RunResult)) {
    var end := Audit(l, r.0);
    end.ok && (r.1.Status? ==> end.open == {} && end.running == {})
  }

  lemma SettledLater(l: Ledger, done: seq<Event>, r: (seq<Event>, RunResult))
    requires Settled(Audit(l, done), r)
    ensures Settled(l, (done + r.0, r.1))
  {
    AuditConcat(l, done, r.0);
  }

  lemma {:induction false} RunSettles(l: Ledger, m: Machine, exits: nat -> int)
    requires Linked(l, m)
    ensures Settled(l, RunMachine(m, exits))
    decreases |m.nodes|
  {
    if m.nodes == [] || m.nodes[0].Op? {
    } else if m.nodes[0].Chdir? {
      if |m.nodes| > 1 && m.nodes[0].dir.Some? {
        RunSettles(l, m.(nodes := m.nodes[2..], cwd := JoinPath(m.cwd, m.nodes[0].dir.value)), exits);
      }
    } else {
      CommandSettles(l, m, exits);
    }
  }

  lemma {:induction false} CommandSettles(l: Ledger, m: Machine, exits: nat -> int)
    requires Linked(l, m) && m.nodes != [] && m.nodes[0].Command?
    ensures Settled(l, RunMachine(m, exits))
    decreases |m.nodes|, 0
  {
    hide RunMachine, AfterLaunch, LaunchEvents, GroupEnd, GroupStatus, Audit, Linked;
    LinkedIsOk(l, m);
    var m1, done := AfterLaunch(m), LaunchEvents(m);
    var ends := GroupEnd(m1.procs, m1.files, exits);
    var status := GroupStatus(m1.procs, exits);
    var l1, l2 := Audit(l, done), Audit(l, done + ends);
    LaunchStaysLinked(l, m);
    GroupEndSettles(l1, m1, exits);
    AuditConcat(l, done, ends);
    LinkedIsOk(l1, m1);
    CommandRound([], m, exits);
    EmptyRound([], m, exits);
    assert [] + done == done;
    var r := RunMachine(m, exits);
    assert [] + r.0 == r.0;
    if m1.nodes == [] || (m1.nodes[0].Op? && !IsOp(m1.nodes[0], Pipe) && IsOp(m1.nodes[0], And) != (status == 0)) {
      assert r == (done + ends, Status(status));
    } else if m1.nodes[0].Op? && !IsOp(m1.nodes[0], Pipe) {
      EmptyGroupLinked(l1, m1);
      RunSettles(l2, NextGroup(m1), exits);
      SettledLater(l, done + ends, RunMachine(NextGroup(m1), exits));
      assert r == (done + ends + RunMachine(NextGroup(m1), exits).0, RunMachine(NextGroup(m1), exits).1);
    } else {
      var m2 := m1.(nodes := m1.nodes[1..], piping := m1.piping || m1.nodes[0].Op?);
      StillLinked(l1, m1, m1.nodes[1..]);
      RunSettles(l1, m2, exits);
      SettledLater(l, done, RunMachine(m2, exits));
      assert r == (done + RunMachine(m2, exits).0, RunMachine(m2, exits).1);
    }
  }

  lemma LinkedIsOk(l: Ledger, m: Machine)
    requires Linked(l, m)
    ensures MachineOk(m) && l.ok
  {
  }

  lemma StillLinked(l: Ledger, m: Machine, tail: seq<Node>)
    requires Linked(l, m) && m.procs != []
    ensures Linked(l, m.(nodes := tail, piping := true)) && Linked(l, m.(nodes := tail))
  {
  }

  lemma EmptyGroupLinked(l: Ledger, m: Machine)
    requires Linked(l, m)
    ensures m.nodes != [] ==> Linked(l.(open := {}, running := {}), NextGroup(m))
  {
  }

  /**
   * On any pipeline and for any exit codes: files are opened and processes started once, only open files are closed
   * and only running processes waited for, and nothing is open or running when a group's status is looked at. When
   * `run` returns a status, each file it opened has therefore been closed exactly once, `dev_null` never, and each
   * process has been waited for.
   */
  lemma RunIsOrderly(nodes: seq<Node>, exits: nat -> int, fileCount: nat, procCount: nat)
    ensures var r := RunMachine(Start(nodes, fileCount, procCount), exits);
            var end := Audit(EMPTY, r.0);
            end.ok && (r.1.Status? ==> end.open == {} && end.running == {})
  {
    assert FilesOf([]) == {} && DistinctFiles([]) && DistinctProcs([]);
    RunSettles(EMPTY, Start(nodes, fileCount, procCount), exits);
  }
}
