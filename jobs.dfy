/**
 * The shell's job list as values: sixteen slots, each a job or a cleared
 * entry, and the next job ID to hand out. The functions here say what the
 * job-list routines compute; the class in module JobTable runs their loops
 * over an array and is proved to agree with them.
 */
module Jobs {
  import opened Wrappers
  import opened CStrings

  /** MAXJOBS: the number of slots in the job list. */
  const MaxJobs: nat := 16

  /** UNDEF, FG, BG and ST. */
  datatype JobState = Undef | Fg | Bg | St

  /** struct job_t; the command line is the text of the C string. */
  datatype Job = Job(pid: int, jid: int, state: JobState, cmdline: string)

  /** What clearjob leaves in a slot. */
  const Cleared: Job := Job(0, 0, Undef, "")

  /** A slot holding a job: addjob only stores a pid of at least 1, under a jid of at least 1. */
  predicate Live(j: Job) {
    j.pid >= 1 && j.jid >= 1
  }

  /** Every slot is either cleared or holds a job. */
  predicate WellFormed(s: seq<Job>) {
    forall i :: 0 <= i < |s| ==> s[i] == Cleared || Live(s[i])
  }

  /** What the list's scans look for: a pid, a jid, or the foreground state. */
  datatype Key = ByPid(pid: int) | ByJid(jid: int) | InForeground

  predicate Matches(j: Job, k: Key) {
    match k
    case ByPid(p) => j.pid == p
    case ByJid(d) => j.jid == d
    case InForeground => j.state == Fg
  }

  /** The scan `for (i = from; i < MAXJOBS; i++) if (match) ...`: the first matching slot. */
  function FindFrom(s: seq<Job>, k: Key, from: nat): (r: Option<nat>)
    requires from <= |s|
    ensures r.Some? ==> from <= r.value < |s| && Matches(s[r.value], k)
    ensures r.Some? ==> forall j :: from <= j < r.value ==> !Matches(s[j], k)
    ensures r.None? ==> forall j :: from <= j < |s| ==> !Matches(s[j], k)
    decreases |s| - from
  {
    if from == |s| then None
    else if Matches(s[from], k) then Some(from)
    else FindFrom(s, k, from + 1)
  }

  /** The first slot matching k, or None. */
  function Find(s: seq<Job>, k: Key): (r: Option<nat>)
    ensures r.Some? ==> r.value < |s| && Matches(s[r.value], k)
    ensures r.Some? ==> forall j :: 0 <= j < r.value ==> !Matches(s[j], k)
    ensures r.None? <==> forall j :: 0 <= j < |s| ==> !Matches(s[j], k)
  {
    FindFrom(s, k, 0)
  }

  /** A matching slot with no match before it is what Find returns. */
  lemma FindFirst(s: seq<Job>, k: Key, i: nat)
    requires i < |s| && Matches(s[i], k)
    requires forall j :: 0 <= j < i ==> !Matches(s[j], k)
    ensures Find(s, k) == Some(i)
  {
    var r := Find(s, k);
    assert r.Some? && r.value <= i;
    assert r.value >= i;
  }

  /**
   * maxjid's loop after its first n slots: 0, raised to each larger jid
   * seen. The result is the largest of 0 and those jids.
   */
  function MaxJidUpTo(s: seq<Job>, n: nat): (m: int)
    requires n <= |s|
    ensures m >= 0
    ensures forall i :: 0 <= i < n ==> s[i].jid <= m
    ensures m == 0 || exists i :: 0 <= i < n && s[i].jid == m
  {
    if n == 0 then 0
    else
      var m := MaxJidUpTo(s, n - 1);
      if s[n - 1].jid > m then s[n - 1].jid else m
  }

  /** maxjid: the largest jid in the list, 0 when there is none above 0. */
  function MaxJidIn(s: seq<Job>): (m: int)
    ensures m >= 0 && forall i :: 0 <= i < |s| ==> s[i].jid <= m
    ensures m == 0 || exists i :: 0 <= i < |s| && s[i].jid == m
  {
    MaxJidUpTo(s, |s|)
  }

  /** fgpid: the pid of the first foreground job, 0 if there is none. */
  function FgPidIn(s: seq<Job>): (pid: int)
    ensures (forall j :: 0 <= j < |s| ==> s[j].state != Fg) ==> pid == 0
    ensures forall i ::
              (0 <= i < |s| && s[i].state == Fg && forall j :: 0 <= j < i ==> s[j].state != Fg)
              ==> pid == s[i].pid
  {
    match Find(s, InForeground)
    case None => 0
    case Some(i) => s[i].pid
  }

  /** getjobpid: the first slot with this pid; NULL (None) for a pid below 1 or no match. */
  function LookupPid(s: seq<Job>, pid: int): (r: Option<nat>)
    ensures r.Some? ==> pid >= 1 && r.value < |s| && s[r.value].pid == pid
    ensures r.Some? ==> forall j :: 0 <= j < r.value ==> s[j].pid != pid
    ensures r.None? <==> pid < 1 || forall j :: 0 <= j < |s| ==> s[j].pid != pid
  {
    if pid < 1 then None else Find(s, ByPid(pid))
  }

  /** getjobjid: the first slot with this jid; NULL (None) for a jid below 1 or no match. */
  function LookupJid(s: seq<Job>, jid: int): (r: Option<nat>)
    ensures r.Some? ==> jid >= 1 && r.value < |s| && s[r.value].jid == jid
    ensures r.Some? ==> forall j :: 0 <= j < r.value ==> s[j].jid != jid
    ensures r.None? <==> jid < 1 || forall j :: 0 <= j < |s| ==> s[j].jid != jid
  {
    if jid < 1 then None else Find(s, ByJid(jid))
  }

  /** pid2jid: the jid of the first job with this pid, 0 for a pid below 1 or no match. */
  function Pid2JidIn(s: seq<Job>, pid: int): (jid: int)
    ensures pid < 1 || (forall j :: 0 <= j < |s| ==> s[j].pid != pid) ==> jid == 0
    ensures forall i ::
              (0 <= i < |s| && pid >= 1 && s[i].pid == pid && forall j :: 0 <= j < i ==> s[j].pid != pid)
              ==> jid == s[i].jid
  {
    match LookupPid(s, pid)
    case None => 0
    case Some(i) => s[i].jid
  }

  /** The global job list: its slots and nextjid. */
  datatype Table = Table(slots: seq<Job>, nextjid: int)

  /** What the shell keeps true of its job list: well-formed slots and a positive nextjid. */
  predicate TableInv(t: Table) {
    WellFormed(t.slots) && t.nextjid >= 1
  }

  /** addjob's update of nextjid: one more, wrapping to 1 past MAXJOBS. */
  function NextJid(n: int): (r: int)
    ensures r == 1 || r == n + 1
    ensures r == n + 1 <==> n + 1 <= MaxJobs
  {
    if n + 1 > MaxJobs then 1 else n + 1
  }

  /**
   * addjob: a pid below 1, or no free slot (pid 0), fails and changes
   * nothing; otherwise the first free slot receives the job under jid
   * nextjid and nextjid advances.
   */
  function Add(t: Table, pid: int, state: JobState, cmdline: string): (r: (Table, bool))
    ensures !r.1 <==> pid < 1 || forall j :: 0 <= j < |t.slots| ==> t.slots[j].pid != 0
    ensures !r.1 ==> r.0 == t
    ensures r.1 ==> exists i :: 0 <= i < |t.slots| && t.slots[i].pid == 0 &&
                      (forall j :: 0 <= j < i ==> t.slots[j].pid != 0) &&
                      r.0.slots == t.slots[i := Job(pid, t.nextjid, state, cmdline)]
    ensures r.1 ==> r.0.nextjid == NextJid(t.nextjid)
  {
    if pid < 1 then (t, false)
    else
      match Find(t.slots, ByPid(0))
      case None => (t, false)
      case Some(i) =>
        (Table(t.slots[i := Job(pid, t.nextjid, state, cmdline)], NextJid(t.nextjid)), true)
  }

  /**
   * deletejob: a pid below 1, or no slot with that pid, fails and changes
   * nothing; otherwise the first slot with that pid is cleared and nextjid
   * becomes one more than the largest jid left.
   */
  function Delete(t: Table, pid: int): (r: (Table, bool))
    ensures !r.1 <==> pid < 1 || forall j :: 0 <= j < |t.slots| ==> t.slots[j].pid != pid
    ensures !r.1 ==> r.0 == t
    ensures r.1 ==> exists i :: 0 <= i < |t.slots| && t.slots[i].pid == pid &&
                      (forall j :: 0 <= j < i ==> t.slots[j].pid != pid) &&
                      r.0.slots == t.slots[i := Cleared]
    ensures r.1 ==> r.0.nextjid == MaxJidIn(r.0.slots) + 1
    ensures r.1 ==> forall j :: 0 <= j < |r.0.slots| ==> r.0.slots[j].jid < r.0.nextjid
  {
    match LookupPid(t.slots, pid)
    case None => (t, false)
    case Some(i) =>
      var s := t.slots[i := Cleared];
      (Table(s, MaxJidIn(s) + 1), true)
  }

  /** The one write a state transition makes: slot i's state. */
  function SetState(s: seq<Job>, i: nat, st: JobState): (r: seq<Job>)
    requires i < |s|
    ensures |r| == |s| && r[i].state == st
    ensures r[i] == Job(s[i].pid, s[i].jid, st, s[i].cmdline)
    ensures forall j :: 0 <= j < |s| && j != i ==> r[j] == s[j]
  {
    s[i := s[i].(state := st)]
  }

  /** How do_bgfg ends: one of its three messages, or the job it resumed. */
  datatype BgFgResult =
    | MissingArgument          // "... command requires PID or %jobid argument"
    | NoSuchJob(jid: int)      // "%<jid>: no such job"
    | NoSuchProcess(pid: int)  // "(<pid>): no such process"
    | NotJobRef                // "...: argument must be a PID or %jobid"
    | Resumed(slot: nat)

  /** The state do_bgfg gives the job it resumes: BG for "bg", FG otherwise. */
  function Resumption(verb: string): JobState {
    if verb == "bg" then Bg else Fg
  }

  /**
   * Which job a bg/fg argument names: "%" and a number is a jid, a leading
   * digit makes the whole argument a pid, each read with atoi.
   */
  function Target(s: seq<Job>, arg: string): (r: BgFgResult)
    ensures r.NotJobRef? <==> |arg| == 0 || (arg[0] != '%' && !IsDigit(arg[0]))
    ensures r.NoSuchJob? ==> arg[0] == '%' && r.jid == Atoi(arg[1..]) && LookupJid(s, r.jid).None?
    ensures r.NoSuchProcess? ==> IsDigit(arg[0]) && r.pid == Atoi(arg) && LookupPid(s, r.pid).None?
    ensures r.Resumed? ==> r.slot < |s| && |arg| > 0
    ensures r.Resumed? && arg[0] == '%' ==> LookupJid(s, Atoi(arg[1..])) == Some(r.slot)
    ensures r.Resumed? && arg[0] != '%' ==> IsDigit(arg[0]) && LookupPid(s, Atoi(arg)) == Some(r.slot)
    ensures !r.MissingArgument?
  {
    if |arg| > 0 && arg[0] == '%' then
      var jid := Atoi(arg[1..]);
      match LookupJid(s, jid)
      case None => NoSuchJob(jid)
      case Some(i) => Resumed(i)
    else if |arg| > 0 && IsDigit(arg[0]) then
      var pid := Atoi(arg);
      match LookupPid(s, pid)
      case None => NoSuchProcess(pid)
      case Some(i) => Resumed(i)
    else NotJobRef
  }

  /**
   * do_bgfg's effect on the job list: with no argument, or an argument that
   * names no job, nothing changes; otherwise the named job alone gets state
   * BG (for "bg") or FG.
   */
  function BgFg(s: seq<Job>, argv: seq<string>): (r: (seq<Job>, BgFgResult))
    requires |argv| >= 1
    ensures |argv| < 2 ==> r == (s, MissingArgument)
    ensures |argv| >= 2 ==> r.1 == Target(s, argv[1])
    ensures !r.1.Resumed? ==> r.0 == s
    ensures r.1.Resumed? ==> |argv| >= 2 && r.1.slot < |s| &&
                             r.0 == SetState(s, r.1.slot, Resumption(argv[0]))
  {
    if |argv| < 2 then (s, MissingArgument)
    else
      var target := Target(s, argv[1]);
      if target.Resumed? then (SetState(s, target.slot, Resumption(argv[0])), target)
      else (s, target)
  }

  /** What waitpid reports for a child: normal exit, death by a signal, or a stop. */
  datatype ChildStatus = Exited(code: int) | Signaled(sig: int) | Stopped(sig: int)

  /**
   * sigchld_handler's bookkeeping for one reaped child: an exited or
   * signalled child's job is deleted; a stopped child's job, if there is
   * one, gets state ST.
   */
  function Reap(t: Table, pid: int, status: ChildStatus): (r: Table)
    ensures !status.Stopped? ==> r == Delete(t, pid).0
    ensures status.Stopped? && LookupPid(t.slots, pid).None? ==> r == t
    ensures status.Stopped? && LookupPid(t.slots, pid).Some? ==>
              r == Table(SetState(t.slots, LookupPid(t.slots, pid).value, St), t.nextjid)
  {
    match status
    case Exited(_) => Delete(t, pid).0
    case Signaled(_) => Delete(t, pid).0
    case Stopped(_) =>
      match LookupPid(t.slots, pid)
      case None => t
      case Some(i) => Table(SetState(t.slots, i, St), t.nextjid)
  }

  /**
   * sigchld_handler's loop: the bookkeeping for each child waitpid reports,
   * in the order reported.
   */
  function ReapAll(t: Table, reports: seq<(int, ChildStatus)>): (r: Table)
    ensures reports == [] ==> r == t
  {
    if reports == [] then t
    else
      var last := reports[|reports| - 1];
      Reap(ReapAll(t, reports[..|reports| - 1]), last.0, last.1)
  }

  // ---------------------------------------------------------------------
  // Properties of the operations.

  /** No two slots hold a job with the same pid. */
  predicate PidsUnique(s: seq<Job>) {
    forall i, j :: 0 <= i < j < |s| && s[i].pid >= 1 ==> s[i].pid != s[j].pid
  }

  /** No job is in the foreground. */
  predicate NoFg(s: seq<Job>) {
    forall i :: 0 <= i < |s| ==> s[i].state != Fg
  }

  /** The design rule of the job-state machine: at most one job is in the foreground. */
  predicate AtMostOneFg(s: seq<Job>) {
    forall i, j :: 0 <= i < j < |s| && s[i].state == Fg ==> s[j].state != Fg
  }

  /** The list the shell starts with: every slot cleared, nextjid 1. */
  function Initial(): (t: Table)
    ensures |t.slots| == MaxJobs && t.nextjid == 1
    ensures forall i :: 0 <= i < MaxJobs ==> t.slots[i] == Cleared
  {
    Table(seq(MaxJobs, _ => Cleared), 1)
  }

  /** The initial list keeps the invariants. */
  lemma InitialInv()
    ensures TableInv(Initial()) && PidsUnique(Initial().slots) && AtMostOneFg(Initial().slots)
  {
  }

  /** On a list of cleared slots maxjid is 0, fgpid is 0 and getjobpid finds nothing. */
  lemma ClearedEmpty(s: seq<Job>, pid: int)
    requires forall i :: 0 <= i < |s| ==> s[i] == Cleared
    ensures MaxJidIn(s) == 0 && FgPidIn(s) == 0 && LookupPid(s, pid).None?
  {
    assert forall i :: 0 <= i < |s| ==> s[i].jid == 0;
  }

  /** fgpid returns 0 exactly when no job is in the foreground. */
  lemma FgPidZeroIffNoFg(s: seq<Job>)
    requires WellFormed(s)
    ensures FgPidIn(s) == 0 <==> NoFg(s)
  {
    if !NoFg(s) {
      var i :| 0 <= i < |s| && s[i].state == Fg;
      var f := Find(s, InForeground).value;
      assert s[f] != Cleared;
    }
  }

  /**
   * Round trip: after addjob stores a pid that was not in the list,
   * getjobpid finds the slot addjob filled, holding that job, and pid2jid
   * gives the jid addjob assigned.
   */
  lemma AddThenLookup(t: Table, pid: int, state: JobState, cmdline: string)
    requires LookupPid(t.slots, pid).None? && Add(t, pid, state, cmdline).1
    ensures var r := Add(t, pid, state, cmdline).0;
            LookupPid(r.slots, pid) == Find(t.slots, ByPid(0)) &&
            r.slots[Find(t.slots, ByPid(0)).value] == Job(pid, t.nextjid, state, cmdline) &&
            Pid2JidIn(r.slots, pid) == t.nextjid
  {
    var i := Find(t.slots, ByPid(0)).value;
    var r := Add(t, pid, state, cmdline).0;
    assert r.slots == t.slots[i := Job(pid, t.nextjid, state, cmdline)];
    assert forall j :: 0 <= j < i ==> r.slots[j].pid != pid;
    var k := LookupPid(r.slots, pid);
    assert r.slots[i].pid == pid;
    assert k.Some? && k.value <= i;
    assert k.value >= i;
  }

  /** After deletejob of a pid, with pids unique, getjobpid no longer finds it. */
  lemma DeleteThenLookup(t: Table, pid: int)
    requires PidsUnique(t.slots)
    ensures LookupPid(Delete(t, pid).0.slots, pid).None?
  {
    if Delete(t, pid).1 {
      var i := LookupPid(t.slots, pid).value;
      var r := Delete(t, pid).0;
      assert r.slots == t.slots[i := Cleared];
      forall j | 0 <= j < |r.slots|
        ensures r.slots[j].pid != pid
      {
        if j < i {
        } else if j > i {
          assert t.slots[i].pid != t.slots[j].pid;
        }
      }
    }
  }

  /** addjob keeps the list's invariant. */
  lemma AddKeepsInv(t: Table, pid: int, state: JobState, cmdline: string)
    requires TableInv(t)
    ensures TableInv(Add(t, pid, state, cmdline).0)
  {
  }

  /** deletejob keeps the list's invariant. */
  lemma DeleteKeepsInv(t: Table, pid: int)
    requires TableInv(t)
    ensures TableInv(Delete(t, pid).0)
  {
  }

  /** bg and fg keep the list's invariant: they only restate a job's state. */
  lemma BgFgKeepsInv(s: seq<Job>, argv: seq<string>)
    requires |argv| >= 1 && WellFormed(s)
    ensures WellFormed(BgFg(s, argv).0)
  {
    var r := BgFg(s, argv);
    if r.1.Resumed? {
      var i := r.1.slot;
      assert s[i] != Cleared;
    }
  }

  /** The bookkeeping for a reaped child keeps the list's invariant. */
  lemma ReapKeepsInv(t: Table, pid: int, status: ChildStatus)
    requires TableInv(t)
    ensures TableInv(Reap(t, pid, status))
  {
    if status.Stopped? && LookupPid(t.slots, pid).Some? {
      var i := LookupPid(t.slots, pid).value;
      assert t.slots[i] != Cleared;
    }
  }

  /** Adding a pid not yet in the list keeps pids unique. */
  lemma AddKeepsPidsUnique(t: Table, pid: int, state: JobState, cmdline: string)
    requires PidsUnique(t.slots) && LookupPid(t.slots, pid).None?
    ensures PidsUnique(Add(t, pid, state, cmdline).0.slots)
  {
  }

  /** deletejob keeps pids unique. */
  lemma DeleteKeepsPidsUnique(t: Table, pid: int)
    requires PidsUnique(t.slots)
    ensures PidsUnique(Delete(t, pid).0.slots)
  {
  }

  /** A new job keeps at most one job in the foreground when it is not FG or none is. */
  lemma AddKeepsOneFg(t: Table, pid: int, state: JobState, cmdline: string)
    requires AtMostOneFg(t.slots) && (state == Fg ==> NoFg(t.slots))
    ensures AtMostOneFg(Add(t, pid, state, cmdline).0.slots)
  {
  }

  /** Deleting a job keeps at most one job in the foreground. */
  lemma DeleteKeepsOneFg(t: Table, pid: int)
    requires AtMostOneFg(t.slots)
    ensures AtMostOneFg(Delete(t, pid).0.slots)
  {
  }

  /** bg keeps at most one job in the foreground; so does fg when none is. */
  lemma BgFgKeepsOneFg(s: seq<Job>, argv: seq<string>)
    requires |argv| >= 1 && AtMostOneFg(s) && (argv[0] != "bg" ==> NoFg(s))
    ensures AtMostOneFg(BgFg(s, argv).0)
  {
  }

  /** The bookkeeping for a reaped child keeps at most one job in the foreground. */
  lemma ReapKeepsOneFg(t: Table, pid: int, status: ChildStatus)
    requires AtMostOneFg(t.slots)
    ensures AtMostOneFg(Reap(t, pid, status).slots)
  {
  }

  /** "bg %n" and "fg %n": the job with jid n, if any, gets the command's state. */
  lemma BgFgByJid(s: seq<Job>, verb: string, n: nat)
    ensures BgFg(s, [verb, "%" + Decimal(n)]) ==
            match LookupJid(s, n)
            case None => (s, NoSuchJob(n))
            case Some(i) => (SetState(s, i, Resumption(verb)), Resumed(i))
  {
    var arg := "%" + Decimal(n);
    assert arg[1..] == Decimal(n) + [];
    AtoiDecimal(n, []);
  }

  /** "bg n" and "fg n": the job with pid n, if any, gets the command's state. */
  lemma BgFgByPid(s: seq<Job>, verb: string, n: nat)
    ensures BgFg(s, [verb, Decimal(n)]) ==
            match LookupPid(s, n)
            case None => (s, NoSuchProcess(n))
            case Some(i) => (SetState(s, i, Resumption(verb)), Resumed(i))
  {
    var d := Decimal(n);
    assert d[0] != '%' && IsDigit(d[0]);
    assert Atoi(d) == n by {
      assert d + [] == d;
      AtoiDecimal(n, []);
    }
  }

  /** The handler's whole loop keeps the list's invariant. */
  lemma {:induction false} ReapAllKeepsInv(t: Table, reports: seq<(int, ChildStatus)>)
    requires TableInv(t)
    ensures TableInv(ReapAll(t, reports))
    decreases |reports|
  {
    if reports != [] {
      var last := reports[|reports| - 1];
      ReapAllKeepsInv(t, reports[..|reports| - 1]);
      ReapKeepsInv(ReapAll(t, reports[..|reports| - 1]), last.0, last.1);
    }
  }

  /** The handler's whole loop keeps at most one job in the foreground. */
  lemma {:induction false} ReapAllKeepsOneFg(t: Table, reports: seq<(int, ChildStatus)>)
    requires AtMostOneFg(t.slots)
    ensures AtMostOneFg(ReapAll(t, reports).slots)
    decreases |reports|
  {
    if reports != [] {
      var last := reports[|reports| - 1];
      ReapAllKeepsOneFg(t, reports[..|reports| - 1]);
      ReapKeepsOneFg(ReapAll(t, reports[..|reports| - 1]), last.0, last.1);
    }
  }
}
