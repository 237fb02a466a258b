/** Many writers replacing files atomically: a tempfile beside the target, written
    in chunks, then renamed over it. Processes start, draw tempfile numbers from
    their own counter, fail and die at any point, and their steps interleave. */
module AtomicWrite {
  import opened Lists

  newtype byte = x: int | 0 <= x < 256
  type Bytes = seq<byte>

  /** A path as the protocol sees it: the parent directory and the file name. */
  datatype Path = Path(dir: string, name: string)

  // ----- Tempfile names -----

  const COUNTER_SIZE: nat := 0x1_0000_0000_0000_0000

  /** The name drawn by process `pid` at its `n`-th draw; the counter is a 64-bit
      atomic and wraps around. */
  function TmpName(stem: string, pid: nat, n: nat): string {
    "." + stem + ".fs." + Decimal(pid) + "." + Decimal(n % COUNTER_SIZE) + ".tmp"
  }

  ghost predicate TmpShaped(name: string) {
    exists stem, pid, n :: name == TmpName(stem, pid, n)
  }

  /** Two draws give the same name exactly when they agree on stem, process and
      counter value: within one trip of the counter names never collide, and a
      full trip later they do. */
  lemma TmpNameInjective(s: string, p: nat, m: nat, t: string, q: nat, n: nat)
    ensures TmpName(s, p, m) == TmpName(t, q, n) <==>
            s == t && p == q && m % 0x1_0000_0000_0000_0000 == n % 0x1_0000_0000_0000_0000
  {
    var i, j := m % COUNTER_SIZE, n % COUNTER_SIZE;
    if TmpName(s, p, m) == TmpName(t, q, n) {
      var a, b := "." + s + ".fs." + Decimal(p) + "." + Decimal(i), "." + t + ".fs." + Decimal(q) + "." + Decimal(j);
      assert TmpName(s, p, m) == a + "." + "tmp" && TmpName(t, q, n) == b + "." + "tmp";
      LastCut(a, "tmp", b, "tmp", '.');
      DecimalDigits(i);
      DecimalDigits(j);
      var c, d := "." + s + ".fs." + Decimal(p), "." + t + ".fs." + Decimal(q);
      assert a == c + "." + Decimal(i) && b == d + "." + Decimal(j);
      LastCut(c, Decimal(i), d, Decimal(j), '.');
      DecimalInjective(i, j);
      DecimalDigits(p);
      DecimalDigits(q);
      var e, f := "." + s + ".fs", "." + t + ".fs";
      assert c == e + "." + Decimal(p) && d == f + "." + Decimal(q);
      LastCut(e, Decimal(p), f, Decimal(q), '.');
      DecimalInjective(p, q);
      assert s == e[1..|e| - 3] && t == f[1..|f| - 3];
    }
  }

  /** The name is hidden, ends in ".tmp" and carries the stem. */
  lemma TmpNameShape(stem: string, pid: nat, n: nat)
    ensures var name := TmpName(stem, pid, n);
            && "." + stem + ".fs." <= name
            && |name| > 4 && name[|name| - 4..] == ".tmp"
  {
    var front := "." + stem + ".fs." + Decimal(pid) + "." + Decimal(n % COUNTER_SIZE);
    assert TmpName(stem, pid, n) == front + ".tmp";
    assert front == ("." + stem + ".fs.") + (Decimal(pid) + "." + Decimal(n % COUNTER_SIZE));
  }

  // ----- The system -----

  /** A writer that has drawn its name but not created the file yet, or one that
      has it open with the first `done` bytes written. */
  datatype Phase = Ready | Writing(done: nat)

  datatype Writer = Writer(pid: nat, draw: nat, stem: string, target: Path, bytes: Bytes, phase: Phase)
  {
    function Tmp(): Path {
      Path(target.dir, TmpName(stem, pid, draw))
    }
  }

  /** Files on disk, how many names each live process has drawn, writers at work. */
  datatype Sys = Sys(files: map<Path, Bytes>, draws: map<nat, nat>, writers: map<nat, Writer>)

  datatype Step =
    | Spawn(pid: nat)
    | Kill(pid: nat)
    | Begin(w: nat, pid: nat, target: Path, utf8: bool, bytes: Bytes)
    | Create(w: nat)
    | Append(w: nat, n: nat)
    | Rename(w: nat)
    | Fail(w: nat)

  /** A name that is not valid text falls back to a fixed stem. */
  function StemOf(target: Path, utf8: bool): string {
    if utf8 then target.name else "file"
  }

  /** Bytes written at an offset of a file, over whatever is there; a gap before
      the offset reads as zeros. */
  function WriteAt(content: Bytes, offset: nat, chunk: Bytes): Bytes {
    if offset > |content| then content + seq(offset - |content|, _ => 0) + chunk
    else content[..offset] + chunk + (if offset + |chunk| < |content| then content[offset + |chunk|..] else [])
  }

  predicate Enabled(s: Sys, e: Step) {
    match e
    case Spawn(pid) => pid !in s.draws
    case Kill(pid) => pid in s.draws
    case Begin(w, pid, _, _, _) => w !in s.writers && pid in s.draws
    case Create(w) => w in s.writers && s.writers[w].phase.Ready?
    case Append(w, n) => w in s.writers && s.writers[w].phase.Writing? && s.writers[w].phase.done + n <= |s.writers[w].bytes|
    case Rename(w) => w in s.writers && s.writers[w].phase == Writing(|s.writers[w].bytes|) && s.writers[w].Tmp() in s.files
    case Fail(w) => w in s.writers
  }

  function Next(s: Sys, e: Step): Sys
    requires Enabled(s, e)
  {
    match e
    case Spawn(pid) => s.(draws := s.draws[pid := 0])
    case Kill(pid) =>
      s.(draws := s.draws - {pid}, writers := map w | w in s.writers && s.writers[w].pid != pid :: s.writers[w])
    case Begin(w, pid, target, utf8, bytes) =>
      s.(draws := s.draws[pid := s.draws[pid] + 1],
      writers := s.writers[w := Writer(pid, s.draws[pid], StemOf(target, utf8), target, bytes, Ready)])
    case Create(w) =>
      s.(files := s.files[s.writers[w].Tmp() := []], writers := s.writers[w := s.writers[w].(phase := Writing(0))])
    case Append(w, n) =>
      var x := s.writers[w];
      var k := x.phase.done;
      s.(files := if x.Tmp() in s.files then s.files[x.Tmp() := WriteAt(s.files[x.Tmp()], k, x.bytes[k..k + n])] else s.files,
      writers := s.writers[w := x.(phase := Writing(k + n))])
    case Rename(w) =>
      var x := s.writers[w];
      s.(files := (s.files - {x.Tmp()})[x.target := s.files[x.Tmp()]], writers := s.writers - {w})
    case Fail(w) => s.(writers := s.writers - {w})
  }

  /** Targets are ordinary files, and no process outlives a full trip of its
      counter. */
  ghost predicate Sane(s: Sys, e: Step) {
    e.Begin? ==> !TmpShaped(e.target.name) && (e.pid in s.draws ==> s.draws[e.pid] < COUNTER_SIZE)
  }

  // ----- The invariant -----

  ghost predicate WriterOk(s: Sys, x: Writer) {
    && x.pid in s.draws
    && x.draw < s.draws[x.pid] <= COUNTER_SIZE
    && !TmpShaped(x.target.name)
    && (x.phase.Writing? ==>
          x.phase.done <= |x.bytes| && x.Tmp() in s.files && s.files[x.Tmp()] == x.bytes[..x.phase.done])
  }

  /** Every writer's tempfile holds exactly what it has written so far, and no two
      writers drew the same number from the same process. */
  ghost predicate SysOk(s: Sys) {
    && (forall w :: w in s.writers ==> WriterOk(s, s.writers[w]))
    && (forall v, w :: v in s.writers && w in s.writers && v != w ==>
          s.writers[v].pid != s.writers[w].pid || s.writers[v].draw != s.writers[w].draw)
  }

  lemma TmpsDiffer(s: Sys, v: nat, w: nat)
    requires SysOk(s) && v in s.writers && w in s.writers && v != w
    ensures s.writers[v].Tmp() != s.writers[w].Tmp()
  {
    var x, y := s.writers[v], s.writers[w];
    assert WriterOk(s, x) && WriterOk(s, y);
    TmpNameInjective(x.stem, x.pid, x.draw, y.stem, y.pid, y.draw);
  }

  lemma TmpNotTarget(x: Writer, target: Path)
    requires !TmpShaped(target.name)
    ensures x.Tmp() != target
  {
    assert TmpShaped(TmpName(x.stem, x.pid, x.draw));
  }

  /** Writer `v`'s tempfile is untouched by a step of another writer `w`. */
  lemma OthersKeep(s: Sys, e: Step, v: nat)
    requires SysOk(s) && Enabled(s, e) && v in s.writers
    requires (e.Create? || e.Append? || e.Rename?) ==> e.w != v
    ensures s.writers[v].Tmp() in s.files ==>
      s.writers[v].Tmp() in Next(s, e).files && Next(s, e).files[s.writers[v].Tmp()] == s.files[s.writers[v].Tmp()]
  {
    hide TmpName, TmpShaped;
    if e.Create? || e.Append? || e.Rename? {
      TmpsDiffer(s, v, e.w);
      assert WriterOk(s, s.writers[e.w]);
      TmpNotTarget(s.writers[v], s.writers[e.w].target);
    }
  }

  lemma AppendGrows(x: Writer, content: Bytes, n: nat)
    requires x.phase.Writing? && x.phase.done + n <= |x.bytes| && content == x.bytes[..x.phase.done]
    ensures WriteAt(content, x.phase.done, x.bytes[x.phase.done..x.phase.done + n]) == x.bytes[..x.phase.done + n]
  {
  }

  /** Every enabled step of every participant keeps the invariant. */
  lemma NextOk(s: Sys, e: Step)
    requires SysOk(s) && Enabled(s, e) && Sane(s, e)
    ensures SysOk(Next(s, e))
  {
    hide TmpName, TmpShaped;
    var r := Next(s, e);
    forall w | w in r.writers ensures WriterOk(r, r.writers[w]) {
      NextWriterOk(s, e, w);
    }
    forall v, w | v in r.writers && w in r.writers && v != w
      ensures r.writers[v].pid != r.writers[w].pid || r.writers[v].draw != r.writers[w].draw
    {
      assert v in s.writers ==> WriterOk(s, s.writers[v]);
      assert w in s.writers ==> WriterOk(s, s.writers[w]);
    }
  }

  lemma NextWriterOk(s: Sys, e: Step, w: nat)
    requires SysOk(s) && Enabled(s, e) && Sane(s, e) && w in Next(s, e).writers
    ensures WriterOk(Next(s, e), Next(s, e).writers[w])
  {
    hide TmpName, TmpShaped, WriteAt;
    if w in s.writers {
      var x := s.writers[w];
      assert WriterOk(s, x);
      if (e.Create? || e.Append?) && e.w == w {
        if e.Append? { AppendGrows(x, s.files[x.Tmp()], e.n); }
      } else {
        OthersKeep(s, e, w);
      }
    }
  }

  // ----- Runs -----

  ghost predicate RunOk(s: Sys, steps: seq<Step>)
    decreases steps
  {
    steps != [] ==> Enabled(s, steps[0]) && Sane(s, steps[0]) && RunOk(Next(s, steps[0]), steps[1..])
  }

  ghost function Run(s: Sys, steps: seq<Step>): Sys
    requires RunOk(s, steps)
    decreases steps
  {
    if steps == [] then s else Run(Next(s, steps[0]), steps[1..])
  }

  function Read(s: Sys, target: Path): Option<Bytes> {
    if target in s.files then Some(s.files[target]) else None
  }

  /** What the run last renamed onto `target`, in full; the content it started
      with if nothing was. */
  ghost function LastCommitted(s: Sys, steps: seq<Step>, target: Path, before: Option<Bytes>): Option<Bytes>
    requires RunOk(s, steps)
    decreases steps
  {
    if steps == [] then before
    else
      var e := steps[0];
      LastCommitted(Next(s, e), steps[1..], target,
                    if e.Rename? && s.writers[e.w].target == target then Some(s.writers[e.w].bytes) else before)
  }

  /** A step changes an ordinary file only by renaming onto it, and then the file
      holds that writer's bytes complete. */
  lemma StepCommits(s: Sys, e: Step, target: Path)
    requires SysOk(s) && Enabled(s, e) && !TmpShaped(target.name)
    ensures Read(Next(s, e), target)
         == if e.Rename? && s.writers[e.w].target == target then Some(s.writers[e.w].bytes) else Read(s, target)
  {
    hide TmpName, TmpShaped;
    if e.Create? || e.Append? || e.Rename? {
      var x := s.writers[e.w];
      assert WriterOk(s, x);
      TmpNotTarget(x, target);
      assert x.bytes[..|x.bytes|] == x.bytes;
    }
  }

  /** For any number of writers interleaving any steps, crashes and process
      restarts included, an ordinary file read at the end of any run holds what
      the last rename onto it brought, complete, or what it held at the start. */
  lemma {:induction false} TargetHoldsLastCommit(s: Sys, steps: seq<Step>, target: Path)
    requires SysOk(s) && RunOk(s, steps) && !TmpShaped(target.name)
    ensures SysOk(Run(s, steps))
    ensures Read(Run(s, steps), target) == LastCommitted(s, steps, target, Read(s, target))
    decreases steps
  {
    hide TmpShaped, SysOk, Next, Enabled, Sane;
    if steps != [] {
      NextOk(s, steps[0]);
      StepCommits(s, steps[0], target);
      TargetHoldsLastCommit(Next(s, steps[0]), steps[1..], target);
    }
  }

  /** Some write of exactly these bytes to this target was begun: before the run,
      or in it. */
  ghost predicate Begun(s: Sys, steps: seq<Step>, target: Path, bytes: Bytes) {
    || (exists w :: w in s.writers && s.writers[w].target == target && s.writers[w].bytes == bytes)
    || (exists k :: 0 <= k < |steps| && steps[k].Begin? && steps[k].target == target && steps[k].bytes == bytes)
  }

  lemma BegunStep(s: Sys, steps: seq<Step>, target: Path, bytes: Bytes)
    requires steps != [] && Enabled(s, steps[0])
    requires Begun(Next(s, steps[0]), steps[1..], target, bytes)
    ensures Begun(s, steps, target, bytes)
  {
    var e, r := steps[0], Next(s, steps[0]);
    if w :| w in r.writers && r.writers[w].target == target && r.writers[w].bytes == bytes {
      if w in s.writers {
        assert s.writers[w].target == target && s.writers[w].bytes == bytes;
      } else {
        assert steps[0].Begin? && steps[0].target == target && steps[0].bytes == bytes;
      }
    } else {
      var k :| 0 <= k < |steps[1..]| && steps[1..][k].Begin? && steps[1..][k].target == target && steps[1..][k].bytes == bytes;
      assert steps[k + 1] == steps[1..][k];
    }
  }

  /** So a reader sees the initial content or the complete bytes of one writer,
      never a prefix and never a mix. */
  lemma {:induction false} ReadersSeeWholeWrites(s: Sys, steps: seq<Step>, target: Path, before: Option<Bytes>)
    requires RunOk(s, steps)
    ensures var c := LastCommitted(s, steps, target, before);
            c == before || (c.Some? && Begun(s, steps, target, c.value))
    decreases steps
  {
    if steps != [] {
      var e := steps[0];
      var now := if e.Rename? && s.writers[e.w].target == target then Some(s.writers[e.w].bytes) else before;
      ReadersSeeWholeWrites(Next(s, e), steps[1..], target, now);
      var c := LastCommitted(s, steps, target, before);
      if c.Some? && Begun(Next(s, e), steps[1..], target, c.value) {
        BegunStep(s, steps, target, c.value);
      } else if e.Rename? && s.writers[e.w].target == target && c == now {
        assert e.w in s.writers;
      }
    }
  }

  /** What a reader sees at the end of any run: what the file held at the start, or
      the complete bytes some write to it was begun with. */
  lemma ReadIsWhole(s: Sys, steps: seq<Step>, target: Path)
    requires SysOk(s) && RunOk(s, steps) && !TmpShaped(target.name)
    ensures var r := Read(Run(s, steps), target);
            r == Read(s, target) || (r.Some? && Begun(s, steps, target, r.value))
  {
    hide SysOk, RunOk, Run, TmpShaped, Begun;
    TargetHoldsLastCommit(s, steps, target);
    ReadersSeeWholeWrites(s, steps, target, Read(s, target));
  }

  /** Before any write has begun the invariant holds, whatever is on disk and
      whichever processes live. */
  lemma IdleOk(files: map<Path, Bytes>, draws: map<nat, nat>)
    ensures SysOk(Sys(files, draws, map[]))
  {
  }

  /** So from such a system every file read at the end of a run is its initial
      content or, complete, the bytes of a write begun in that run. */
  lemma FromIdle(files: map<Path, Bytes>, draws: map<nat, nat>, steps: seq<Step>, target: Path)
    requires RunOk(Sys(files, draws, map[]), steps) && !TmpShaped(target.name)
    ensures var r := Read(Run(Sys(files, draws, map[]), steps), target);
            || r == (if target in files then Some(files[target]) else None)
            || exists k :: 0 <= k < |steps| && steps[k].Begin? && steps[k].target == target && r == Some(steps[k].bytes)
  {
    hide RunOk, Run, TmpShaped;
    IdleOk(files, draws);
    ReadIsWhole(Sys(files, draws, map[]), steps, target);
  }

  // ----- Tempfiles -----

  /** A writer's tempfile stands beside its target and is named after it, or after a
      fixed stem if the name is not text. */
  lemma TmpBeside(s: Sys, e: Step)
    requires e.Begin? && Enabled(s, e)
    ensures e.w in Next(s, e).writers
    ensures var tmp := Next(s, e).writers[e.w].Tmp();
            tmp.dir == e.target.dir && "." + (if e.utf8 then e.target.name else "file") + ".fs." <= tmp.name
  {
    TmpNameShape(StemOf(e.target, e.utf8), e.pid, s.draws[e.pid]);
  }

  /** A process draws its tempfile numbers in a row, from zero. */
  lemma DrawsExact(s: Sys, e: Step)
    requires Enabled(s, e)
    ensures var r := Next(s, e);
            match e
            case Spawn(pid) => r.draws == s.draws[pid := 0]
            case Kill(pid) => r.draws == s.draws - {pid}
            case Begin(w, pid, _, _, _) => r.draws == s.draws[pid := s.draws[pid] + 1] && r.writers[w].pid == pid && r.writers[w].draw == s.draws[pid]
            case _ => r.draws == s.draws
  {
  }

  /** Every file after a step: creating empties the tempfile, writing extends it to
      the bytes so far, renaming takes it away and gives the target all of them; no
      other file and no other step matters. */
  lemma FilesExact(s: Sys, e: Step, p: Path)
    requires SysOk(s) && Enabled(s, e)
    ensures Read(Next(s, e), p)
         == match e
            case Create(w) => if p == s.writers[w].Tmp() then Some([]) else Read(s, p)
            case Append(w, n) =>
              if p == s.writers[w].Tmp() then Some(s.writers[w].bytes[..s.writers[w].phase.done + n]) else Read(s, p)
            case Rename(w) =>
              if p == s.writers[w].target then Some(s.writers[w].bytes) else if p == s.writers[w].Tmp() then None else Read(s, p)
            case _ => Read(s, p)
  {
    hide TmpName, TmpShaped, WriteAt;
    if e.Append? || e.Rename? {
      var x := s.writers[e.w];
      assert WriterOk(s, x);
      if e.Append? { AppendGrows(x, s.files[x.Tmp()], e.n); }
      assert x.bytes[..|x.bytes|] == x.bytes;
    }
  }

  /** Every tempfile was there at the start or belongs to a writer at work. */
  ghost predicate Tidy(s: Sys, start: map<Path, Bytes>) {
    forall p :: p in s.files && TmpShaped(p.name) ==>
      p in start || exists w :: w in s.writers && s.writers[w].phase.Writing? && s.writers[w].Tmp() == p
  }

  lemma TidyStep(s: Sys, e: Step, start: map<Path, Bytes>)
    requires SysOk(s) && Enabled(s, e) && Sane(s, e) && Tidy(s, start) && !e.Fail? && !e.Kill?
    ensures Tidy(Next(s, e), start)
  {
    hide TmpName, TmpShaped, WriteAt;
    var r := Next(s, e);
    forall p | p in r.files && TmpShaped(p.name) && p !in start
      ensures exists w :: w in r.writers && r.writers[w].phase.Writing? && r.writers[w].Tmp() == p
    {
      FilesExact(s, e, p);
      if e.Create? && p == s.writers[e.w].Tmp() {
        assert r.writers[e.w].Tmp() == p;
      } else {
        if e.Rename? { assert WriterOk(s, s.writers[e.w]); }
        assert p in s.files;
        var w :| w in s.writers && s.writers[w].phase.Writing? && s.writers[w].Tmp() == p;
        assert r.writers[w].Tmp() == p;
      }
    }
  }

  /** In a run in which no writer fails and no process dies, finished writers leave
      no tempfile behind. */
  lemma {:induction false} TidyRun(s: Sys, steps: seq<Step>, start: map<Path, Bytes>)
    requires SysOk(s) && RunOk(s, steps) && Tidy(s, start)
    requires forall k :: 0 <= k < |steps| ==> !steps[k].Fail? && !steps[k].Kill?
    ensures Tidy(Run(s, steps), start)
    decreases steps
  {
    hide SysOk, Next, Enabled, Sane, Tidy;
    if steps != [] {
      NextOk(s, steps[0]);
      TidyStep(s, steps[0], start);
      TidyRun(Next(s, steps[0]), steps[1..], start);
    }
  }

  // ----- One call, as the source runs it -----

  /** A process's view: the disk and its tempfile counter. */
  class Process {
    const pid: nat
    var counter: nat
    var files: map<Path, Bytes>

    constructor (pid: nat, files: map<Path, Bytes>)
      ensures this.pid == pid && counter == 0 && this.files == files
    {
      this.pid, counter, this.files := pid, 0, files;
    }

    method TmpSibling(path: Path, utf8: bool) returns (tmp: Path)
      modifies this`counter
      ensures tmp == Path(path.dir, TmpName(StemOf(path, utf8), pid, old(counter)))
      ensures counter == (old(counter) + 1) % COUNTER_SIZE
    {
      var seq_ := counter;
      counter := (counter + 1) % COUNTER_SIZE;
      tmp := Path(path.dir, TmpName(StemOf(path, utf8), pid, seq_));
    }

    /** Undisturbed, the call replaces the target and leaves no tempfile, however
        the bytes are cut into chunks; no other file changes. */
    method Write(path: Path, utf8: bool, bytes: Bytes, chunk: nat)
      requires !TmpShaped(path.name) && chunk > 0
      modifies this
      ensures files == (old(files) - {Path(path.dir, TmpName(StemOf(path, utf8), pid, old(counter)))})[path := bytes]
      ensures counter == (old(counter) + 1) % COUNTER_SIZE
    {
      var tmp := TmpSibling(path, utf8);
      files := files[tmp := []];
      var done := 0;
      while done < |bytes|
        invariant done <= |bytes|
        invariant files == old(files)[tmp := bytes[..done]]
        invariant counter == (old(counter) + 1) % COUNTER_SIZE
      {
        var n := if done + chunk <= |bytes| then chunk else |bytes| - done;
        var grown := WriteAt(files[tmp], done, bytes[done..done + n]);
        assert grown == bytes[..done + n];
        assert files[tmp := grown] == old(files)[tmp := grown];
        files := files[tmp := grown];
        done := done + n;
      }
      assert bytes[..done] == bytes;
      files := (files - {tmp})[path := files[tmp]];
    }
  }
}
