/**
  The job-table routines, commands and handlers of lab9/tsh.c as they update the table in place; each is one
  step of the machine in module Jobs.
 */
module Tsh {
  import opened CString
  import opened Jobs
  import opened Wrappers

  class JobTable {
    const jobs: array<Job>
    var nextjid: int
    var chldReaped: bool
    ghost var phase: Phase

    constructor ()
      ensures Valid() && Abs() == Init() && fresh(jobs)
    {
      jobs := new Job[MAXJOBS](_ => NO_JOB);
      nextjid, chldReaped, phase := 1, false, Reading;
      new;
      InitJobs();
      assert jobs[..] == Init().jobs;
    }

    ghost predicate Valid() {
      jobs.Length == MAXJOBS
    }

    ghost function Abs(): Shell
      reads this, jobs
    {
      Shell(jobs[..], nextjid, chldReaped, phase)
    }

    // initjobs
    method InitJobs()
      requires Valid()
      modifies jobs
      ensures forall i :: 0 <= i < jobs.Length ==> jobs[i] == NO_JOB
    {
      for i := 0 to jobs.Length
        invariant forall k :: 0 <= k < i ==> jobs[k] == NO_JOB
      {
        jobs[i] := NO_JOB;
      }
    }

    // maxjid
    method MaxJobId() returns (max: int)
      requires Valid()
      ensures max == MaxJid(jobs[..])
    {
      max := 0;
      for i := 0 to jobs.Length
        invariant max == MaxJid(jobs[..i])
      {
        assert jobs[..i + 1][..i] == jobs[..i];
        if jobs[i].jid > max {
          max := jobs[i].jid;
        }
      }
      assert jobs[..jobs.Length] == jobs[..];
    }

    // addjob
    method AddJob(pid: int, state: JobState, cmdline: string) returns (r: int)
      requires Valid()
      modifies this`nextjid, jobs
      ensures Abs() == Added(old(Abs()), pid, state, cmdline)
      ensures r == if pid >= 1 && WithPid(old(jobs[..]), 0) < MAXJOBS then 1 else 0
    {
      hide First;
      if pid < 1 {
        return 0;
      }
      for i := 0 to jobs.Length
        invariant Abs() == old(Abs())
        invariant forall k :: 0 <= k < i ==> jobs[..][k].pid != 0
      {
        if jobs[i].pid == 0 {
          FirstIs(jobs[..], 0, i);
          jobs[i] := Job(pid, nextjid, state, cmdline);
          nextjid := nextjid + 1;
          if nextjid > MAXJOBS {
            nextjid := 1;
          }
          return 1;
        }
      }
      return 0;
    }

    // deletejob
    method DeleteJob(pid: int) returns (r: int)
      requires Valid()
      modifies this`nextjid, jobs
      ensures Abs() == Deleted(old(Abs()), pid)
      ensures r == if pid >= 1 && WithPid(old(jobs[..]), pid) < MAXJOBS then 1 else 0
    {
      hide First, MaxJid;
      if pid < 1 {
        return 0;
      }
      for i := 0 to jobs.Length
        invariant Abs() == old(Abs())
        invariant forall k :: 0 <= k < i ==> jobs[..][k].pid != pid
      {
        if jobs[i].pid == pid {
          FirstIs(jobs[..], pid, i);
          jobs[i] := NO_JOB;
          var max := MaxJobId();
          nextjid := max + 1;
          return 1;
        }
      }
      return 0;
    }

    // fgpid
    method ForegroundPid() returns (pid: int)
      requires Valid()
      ensures pid == FgPid(jobs[..])
    {
      hide First;
      for i := 0 to jobs.Length
        invariant forall k :: 0 <= k < i ==> jobs[..][k].state != FG
      {
        if jobs[i].state == FG {
          assert jobs[..][i].state == FG;
          assert Foreground(jobs[..]) == i;
          return jobs[i].pid;
        }
      }
      return 0;
    }

    // getjobpid
    method GetJobPid(pid: int) returns (r: Option<nat>)
      requires Valid()
      ensures r == if pid >= 1 && WithPid(jobs[..], pid) < MAXJOBS then Some(WithPid(jobs[..], pid)) else None
    {
      hide First;
      if pid < 1 {
        return None;
      }
      for i := 0 to jobs.Length
        invariant forall k :: 0 <= k < i ==> jobs[..][k].pid != pid
      {
        if jobs[i].pid == pid {
          FirstIs(jobs[..], pid, i);
          return Some(i);
        }
      }
      return None;
    }

    // getjobjid
    method GetJobJid(jid: int) returns (r: Option<nat>)
      requires Valid()
      ensures r == if jid >= 1 && WithJid(jobs[..], jid) < MAXJOBS then Some(WithJid(jobs[..], jid)) else None
    {
      hide First;
      if jid < 1 {
        return None;
      }
      for i := 0 to jobs.Length
        invariant forall k :: 0 <= k < i ==> jobs[..][k].jid != jid
      {
        if jobs[i].jid == jid {
          assert jobs[..][i].jid == jid;
          assert WithJid(jobs[..], jid) == i;
          return Some(i);
        }
      }
      return None;
    }

    // pid2jid
    method Pid2Jid(pid: int) returns (jid: int)
      requires Valid()
      ensures jid == if pid >= 1 && WithPid(jobs[..], pid) < MAXJOBS then jobs[WithPid(jobs[..], pid)].jid else 0
    {
      var r := GetJobPid(pid);
      match r {
        case None => return 0;
        case Some(i) => return jobs[i].jid;
      }
    }

    // eval, from the moment the child exists up to waitfg
    method EvalJob(pid: int, bg: bool, cmdline: string)
      requires Valid() && Enabled(Abs(), Launch(pid, bg, cmdline))
      modifies this, jobs
      ensures Abs() == Step(old(Abs()), Launch(pid, bg, cmdline))
    {
      hide First;
      if !bg {
        var r := AddJob(pid, FG, cmdline);
        phase := Entering;
      } else {
        var r := AddJob(pid, BG, cmdline);
      }
    }

    // do_bgfg up to waitfg; the result is false if unix_error would have been called.
    method DoBgFg(argv: seq<string>) returns (ok: bool)
      requires Valid() && Enabled(Abs(), BgFg(argv))
      modifies this, jobs
      ensures Abs() == Step(old(Abs()), BgFg(argv)) && ok == (phase != Dead)
    {
      hide First, Atoi;
      if |argv| < 2 {
        return true;
      }
      var para := argv[1];
      var found;
      if para != "" && para[0] == '%' {
        var jid := Atoi(para[1..]);
        found := GetJobJid(jid);
        if jid == 0 || found == None {
          return true;
        }
      } else {
        var pid := Atoi(para);
        found := GetJobPid(pid);
        if pid == 0 || found == None {
          return true;
        }
      }
      var i := found.value;
      assert Target(jobs[..], argv) == Some(i);
      ok := true;
      if argv[0] == "fg" {
        match jobs[i].state {
          case ST =>
            jobs[i] := jobs[i].(state := FG);
            phase := Entering;
          case BG =>
            jobs[i] := jobs[i].(state := FG);
            phase := Entering;
          case _ =>
            phase := Dead;
            ok := false;
        }
      } else if argv[0] == "bg" {
        match jobs[i].state {
          case ST => jobs[i] := jobs[i].(state := BG);
          case BG =>
          case _ =>
            phase := Dead;
            ok := false;
        }
      }
    }

    // The first statement of waitfg
    method ClearFlag()
      requires Valid() && Enabled(Abs(), Reset)
      modifies this`chldReaped, this`phase
      ensures Abs() == Step(old(Abs()), Reset)
    {
      chldReaped := false;
      phase := Waiting;
    }

    // One look of waitfg at the flag; true if waitfg returns
    method TestFlag() returns (done: bool)
      requires Valid() && phase == Waiting
      modifies this`phase
      ensures done == Enabled(old(Abs()), Wake)
      ensures Abs() == if done then Step(old(Abs()), Wake) else old(Abs())
    {
      done := chldReaped;
      if done {
        phase := Reading;
      }
    }

    // sigchld_handler, with the child that waitpid reports
    method SigchldHandler(pid: int, stopped: bool)
      requires Valid() && Enabled(Abs(), Child(pid, stopped))
      modifies this`chldReaped, this`nextjid, jobs
      ensures Abs() == Step(old(Abs()), Child(pid, stopped))
    {
      hide First, MaxJid;
      var fg := ForegroundPid();
      if pid == fg {
        chldReaped := true;
      }
      if stopped {
        var job := GetJobPid(pid);
        jobs[job.value] := jobs[job.value].(state := ST);
      } else {
        var r := DeleteJob(pid);
      }
    }
  }

  lemma FirstIs(jobs: seq<Job>, pid: int, i: nat)
    requires i < |jobs| && jobs[i].pid == pid && forall k :: 0 <= k < i ==> jobs[k].pid != pid
    ensures WithPid(jobs, pid) == i
  {
    hide First;
  }
}
