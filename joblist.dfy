/**
 * The shell's global job list as mutable state: the array of MAXJOBS slots
 * and the nextjid counter, with the job-list routines as methods that run
 * the same loops. Each method is proved to agree with its specification in
 * module Jobs.
 */
module JobTable {
  import opened Wrappers
  import opened CStrings
  import opened Jobs

  class JobList {
    /** jobs[MAXJOBS] */
    const jobs: array<Job>
    /** nextjid */
    var nextjid: int

    ghost predicate Valid()
      reads this, jobs
    {
      jobs.Length == MaxJobs && TableInv(Table(jobs[..], nextjid))
    }

    /** The list's current value. */
    ghost function Snapshot(): Table
      reads this, jobs
    {
      Table(jobs[..], nextjid)
    }

    /** The globals' initial values: zeroed (cleared) slots and nextjid = 1. */
    constructor()
      ensures Valid() && fresh(jobs)
      ensures Snapshot() == Initial()
    {
      jobs := new Job[MaxJobs](_ => Cleared);
      nextjid := 1;
      new;
      assert jobs[..] == Initial().slots;
    }

    /** clearjob(&jobs[i]) */
    method ClearJob(i: nat)
      requires Valid() && i < MaxJobs
      modifies jobs
      ensures Valid()
      ensures jobs[..] == old(jobs[..])[i := Cleared]
    {
      jobs[i] := Cleared;
    }

    /** initjobs: every slot cleared; maxjid is then 0. */
    method InitJobs()
      requires Valid()
      modifies jobs
      ensures Valid() && nextjid == old(nextjid)
      ensures forall i :: 0 <= i < MaxJobs ==> jobs[i] == Cleared
      ensures MaxJidIn(jobs[..]) == 0
    {
      for i := 0 to MaxJobs
        invariant Valid()
        invariant forall j :: 0 <= j < i ==> jobs[j] == Cleared
      {
        ClearJob(i);
      }
      ClearedEmpty(jobs[..], 0);
    }

    /** maxjid */
    method MaxJid() returns (max: int)
      requires Valid()
      ensures max == MaxJidIn(jobs[..])
      ensures max >= 0 && forall i :: 0 <= i < MaxJobs ==> jobs[i].jid <= max
    {
      max := 0;
      for i := 0 to MaxJobs
        invariant max == MaxJidUpTo(jobs[..], i)
      {
        if jobs[i].jid > max {
          max := jobs[i].jid;
        }
      }
      assert jobs[..] == jobs[..][..MaxJobs];
    }

    /** addjob */
    method AddJob(pid: int, state: JobState, cmdline: string) returns (added: bool)
      requires Valid()
      modifies this, jobs
      ensures Valid()
      ensures (Snapshot(), added) == Add(old(Snapshot()), pid, state, cmdline)
    {
      if pid < 1 {
        return false;
      }
      for i := 0 to MaxJobs
        invariant forall j :: 0 <= j < i ==> jobs[j].pid != 0
      {
        if jobs[i].pid == 0 {
          FindFirst(jobs[..], ByPid(0), i);
          jobs[i] := Job(pid, nextjid, state, cmdline);
          nextjid := nextjid + 1;
          if nextjid > MaxJobs {
            nextjid := 1;
          }
          return true;
        }
      }
      return false;
    }

    /** deletejob */
    method DeleteJob(pid: int) returns (deleted: bool)
      requires Valid()
      modifies this, jobs
      ensures Valid()
      ensures (Snapshot(), deleted) == Delete(old(Snapshot()), pid)
    {
      if pid < 1 {
        return false;
      }
      for i := 0 to MaxJobs
        invariant forall j :: 0 <= j < i ==> jobs[j].pid != pid
      {
        if jobs[i].pid == pid {
          FindFirst(jobs[..], ByPid(pid), i);
          ClearJob(i);
          var max := MaxJid();
          nextjid := max + 1;
          return true;
        }
      }
      return false;
    }

    /** fgpid */
    method FgPid() returns (pid: int)
      requires Valid()
      ensures pid == FgPidIn(jobs[..])
    {
      for i := 0 to MaxJobs
        invariant forall j :: 0 <= j < i ==> jobs[j].state != Fg
      {
        if jobs[i].state == Fg {
          FindFirst(jobs[..], InForeground, i);
          return jobs[i].pid;
        }
      }
      return 0;
    }

    /** getjobpid: the index of the slot, None for NULL. */
    method GetJobPid(pid: int) returns (job: Option<nat>)
      requires Valid()
      ensures job == LookupPid(jobs[..], pid)
    {
      if pid < 1 {
        return None;
      }
      for i := 0 to MaxJobs
        invariant forall j :: 0 <= j < i ==> jobs[j].pid != pid
      {
        if jobs[i].pid == pid {
          FindFirst(jobs[..], ByPid(pid), i);
          return Some(i);
        }
      }
      return None;
    }

    /** getjobjid: the index of the slot, None for NULL. */
    method GetJobJid(jid: int) returns (job: Option<nat>)
      requires Valid()
      ensures job == LookupJid(jobs[..], jid)
    {
      if jid < 1 {
        return None;
      }
      for i := 0 to MaxJobs
        invariant forall j :: 0 <= j < i ==> jobs[j].jid != jid
      {
        if jobs[i].jid == jid {
          FindFirst(jobs[..], ByJid(jid), i);
          return Some(i);
        }
      }
      return None;
    }

    /** pid2jid */
    method Pid2Jid(pid: int) returns (jid: int)
      requires Valid()
      ensures jid == Pid2JidIn(jobs[..], pid)
    {
      if pid < 1 {
        return 0;
      }
      for i := 0 to MaxJobs
        invariant forall j :: 0 <= j < i ==> jobs[j].pid != pid
      {
        if jobs[i].pid == pid {
          FindFirst(jobs[..], ByPid(pid), i);
          return jobs[i].jid;
        }
      }
      return 0;
    }

    /**
     * do_bgfg's reading of its argument: %jid looks a job up by jid, a
     * leading digit by pid, anything else names no job.
     */
    method FindTarget(arg: string) returns (target: BgFgResult)
      requires Valid()
      ensures target == Target(jobs[..], arg)
    {
      if |arg| > 0 && arg[0] == '%' {
        var jid := Atoi(arg[1..]);
        var job := GetJobJid(jid);
        if job.None? {
          return NoSuchJob(jid);
        }
        return Resumed(job.value);
      } else if |arg| > 0 && IsDigit(arg[0]) {
        var pid := Atoi(arg);
        var job := GetJobPid(pid);
        if job.None? {
          return NoSuchProcess(pid);
        }
        return Resumed(job.value);
      }
      return NotJobRef;
    }

    /**
     * do_bgfg's work on the job list (argv[0] is "bg" or "fg"): find the
     * job the argument names and give it state BG or FG.
     */
    method DoBgFg(argv: seq<string>) returns (result: BgFgResult)
      requires Valid() && |argv| >= 1
      modifies jobs
      ensures Valid()
      ensures (jobs[..], result) == BgFg(old(jobs[..]), argv)
    {
      if |argv| < 2 {
        return MissingArgument;
      }
      result := FindTarget(argv[1]);
      if !result.Resumed? {
        return;
      }
      var i := result.slot;
      BgFgKeepsInv(jobs[..], argv);
      if argv[0] == "bg" {
        jobs[i] := jobs[i].(state := Bg);
      } else {
        jobs[i] := jobs[i].(state := Fg);
      }
    }

    /** sigchld_handler's bookkeeping for one child that waitpid reported. */
    method HandleChildStatus(pid: int, status: ChildStatus)
      requires Valid()
      modifies this, jobs
      ensures Valid()
      ensures Snapshot() == Reap(old(Snapshot()), pid, status)
    {
      match status
      case Exited(_) =>
        var _ := DeleteJob(pid);
      case Signaled(_) =>
        var _ := DeleteJob(pid);
      case Stopped(_) =>
        var job := GetJobPid(pid);
        if job.Some? {
          ReapKeepsInv(Snapshot(), pid, status);
          jobs[job.value] := jobs[job.value].(state := St);
        }
    }

    /** sigchld_handler's loop over the children waitpid reports, in order. */
    method HandleChildren(reports: seq<(int, ChildStatus)>)
      requires Valid()
      modifies this, jobs
      ensures Valid()
      ensures Snapshot() == ReapAll(old(Snapshot()), reports)
    {
      for k := 0 to |reports|
        invariant Valid()
        invariant Snapshot() == ReapAll(old(Snapshot()), reports[..k])
      {
        assert reports[..k + 1][..k] == reports[..k];
        HandleChildStatus(reports[k].0, reports[k].1);
      }
      assert reports[..|reports|] == reports;
    }
  }
}
