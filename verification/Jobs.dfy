/**
  Job control in lab9/tsh.c: the job table, the built-in fg and bg commands, the wait for the foreground job
  and the SIGCHLD handler, as steps that may interleave.
 */
module Jobs {
  import opened CString
  import opened Wrappers

  const MAXJOBS: nat := 16

  datatype JobState = UNDEF | FG | BG | ST

  // job_t
  datatype Job = Job(pid: int, jid: int, state: JobState, cmdline: string)

  const NO_JOB: Job := Job(0, 0, UNDEF, "")

  // ---------- the job table ----------

  // The first slot for which `p` holds, or the length
  function First(jobs: seq<Job>, p: Job -> bool): (i: nat)
    ensures i <= |jobs|
    ensures forall k :: 0 <= k < i ==> !p(jobs[k])
    ensures i < |jobs| ==> p(jobs[i])
  {
    if jobs == [] || p(jobs[0]) then 0 else 1 + First(jobs[1..], p)
  }

  function WithPid(jobs: seq<Job>, pid: int): nat {
    First(jobs, (j: Job) => j.pid == pid)
  }

  function WithJid(jobs: seq<Job>, jid: int): nat {
    First(jobs, (j: Job) => j.jid == jid)
  }

  function Foreground(jobs: seq<Job>): nat {
    First(jobs, (j: Job) => j.state == FG)
  }

  function FgPid(jobs: seq<Job>): int {
    var i := Foreground(jobs);
    if i < |jobs| then jobs[i].pid else 0
  }

  function MaxJid(jobs: seq<Job>): (m: int)
    ensures m >= 0 && forall i :: 0 <= i < |jobs| ==> jobs[i].jid <= m
    ensures m > 0 ==> exists i :: 0 <= i < |jobs| && jobs[i].jid == m
  {
    if jobs == [] then 0 else
      var m := MaxJid(jobs[..|jobs| - 1]);
      var last := jobs[|jobs| - 1];
      if last.jid > m then last.jid else m
  }

  // ---------- the shell as a step machine ----------

  // `Entering` is between the start of a foreground job and the first assignment of waitfg, when SIGCHLD is
  // no longer blocked; `Dead` is after a call of unix_error.
  datatype Phase = Reading | Entering | Waiting | Dead

  datatype Shell = Shell(jobs: seq<Job>, nextjid: int, reaped: bool, phase: Phase)

  datatype Event =
    | Launch(pid: int, bg: bool, cmdline: string)    // eval starts a child
    | BgFg(argv: seq<string>)                        // the built-in commands fg and bg
    | Reset                                          // waitfg clears the flag
    | Wake                                           // waitfg finds the flag set
    | Child(pid: int, stopped: bool)                 // SIGCHLD: a child stopped or ended

  function Init(): Shell {
    Shell(seq(MAXJOBS, _ => NO_JOB), 1, false, Reading)
  }

  // addjob into a slot that is free
  function Added(s: Shell, pid: int, state: JobState, cmdline: string): Shell {
    var i := WithPid(s.jobs, 0);
    if pid < 1 || i == |s.jobs| then s else
      s.(jobs := s.jobs[i := Job(pid, s.nextjid, state, cmdline)],
         nextjid := if s.nextjid + 1 > MAXJOBS then 1 else s.nextjid + 1)
  }

  // deletejob
  function Deleted(s: Shell, pid: int): Shell {
    var i := WithPid(s.jobs, pid);
    if pid < 1 || i == |s.jobs| then s else
      var jobs := s.jobs[i := NO_JOB];
      s.(jobs := jobs, nextjid := MaxJid(jobs) + 1)
  }

  // The job a fg or bg command is about; None if there is none
  function Target(jobs: seq<Job>, argv: seq<string>): Option<nat> {
    if |argv| < 2 then None else
      var arg := argv[1];
      var i := if arg != "" && arg[0] == '%'
               then if Atoi(arg[1..]) < 1 then |jobs| else WithJid(jobs, Atoi(arg[1..]))
               else if Atoi(arg) < 1 then |jobs| else WithPid(jobs, Atoi(arg));
      if i < |jobs| then Some(i) else None
  }

  // The two switches of do_bgfg; unix_error ends the shell.
  function Resumed(s: Shell, fg: bool, i: nat): Shell
    requires i < |s.jobs|
  {
    match s.jobs[i].state
    case ST => if fg then s.(jobs := s.jobs[i := s.jobs[i].(state := FG)], phase := Entering)
               else s.(jobs := s.jobs[i := s.jobs[i].(state := BG)])
    case BG => if fg then s.(jobs := s.jobs[i := s.jobs[i].(state := FG)], phase := Entering) else s
    case _ => s.(phase := Dead)
  }

  // What the handler does with a child that waitpid reports
  function Handled(s: Shell, pid: int, stopped: bool): Shell {
    var s' := if pid == FgPid(s.jobs) then s.(reaped := true) else s;
    if stopped then
      var i := WithPid(s.jobs, pid);
      if i < |s.jobs| then s'.(jobs := s.jobs[i := s.jobs[i].(state := ST)]) else s'
    else Deleted(s', pid)
  }

  // Pids are fresh, there is room for a job, and only children can change.
  predicate Enabled(s: Shell, e: Event) {
    match e
    case Launch(pid, _, _) =>
      s.phase == Reading && pid >= 1 && WithPid(s.jobs, pid) == |s.jobs| && WithPid(s.jobs, 0) < |s.jobs|
    case BgFg(argv) => s.phase == Reading && argv != []
    case Reset => s.phase == Entering
    case Wake => s.phase == Waiting && s.reaped
    case Child(pid, _) => s.phase != Dead && pid >= 1 && WithPid(s.jobs, pid) < |s.jobs|
  }

  function Step(s: Shell, e: Event): Shell
    requires Enabled(s, e)
  {
    match e
    case Launch(pid, bg, cmdline) =>
      if bg then Added(s, pid, BG, cmdline) else Added(s, pid, FG, cmdline).(phase := Entering)
    case BgFg(argv) =>
      (match Target(s.jobs, argv)
       case None => s
       case Some(i) => if argv[0] == "fg" then Resumed(s, true, i) else if argv[0] == "bg" then Resumed(s, false, i) else s)
    case Reset => s.(reaped := false, phase := Waiting)
    case Wake => s.(phase := Reading)
    case Child(pid, stopped) => Handled(s, pid, stopped)
  }

  // ---------- the invariant ----------

  // A slot is free or holds a job with a pid and a job number.
  predicate SlotOk(j: Job) {
    (j.pid == 0 <==> j.state == UNDEF) && (j.pid != 0 ==> j.pid >= 1 && j.jid >= 1) && (j.pid == 0 ==> j.jid == 0)
  }

  ghost predicate TableOk(jobs: seq<Job>) {
    && |jobs| == MAXJOBS && (forall i :: 0 <= i < |jobs| ==> SlotOk(jobs[i]))
    && (forall i, j :: 0 <= i < j < |jobs| && jobs[i].pid != 0 ==> jobs[i].pid != jobs[j].pid)
    && (forall i, j :: 0 <= i < j < |jobs| && jobs[i].state == FG ==> jobs[j].state != FG)
  }

  ghost predicate NoForeground(jobs: seq<Job>) {
    forall i :: 0 <= i < |jobs| ==> jobs[i].state != FG
  }

  ghost predicate Inv(s: Shell) {
    && TableOk(s.jobs) && s.nextjid >= 1 && s.phase != Dead
    && (s.phase == Reading ==> NoForeground(s.jobs))
    && (s.phase == Waiting && s.reaped ==> NoForeground(s.jobs))
  }

  lemma AddKeeps(s: Shell, pid: int, state: JobState, cmdline: string)
    requires Inv(s) && s.phase == Reading && state != UNDEF && Enabled(s, Launch(pid, state == BG, cmdline))
    ensures var s' := Added(s, pid, state, cmdline);
            && TableOk(s'.jobs) && s'.nextjid >= 1 && s'.phase == Reading
            && (state != FG ==> NoForeground(s'.jobs))
  {
    hide First;
  }

  lemma DeleteKeeps(s: Shell, pid: int)
    requires Inv(s)
    ensures var s' := Deleted(s, pid);
            && TableOk(s'.jobs) && s'.nextjid >= 1
            && (NoForeground(s.jobs) || pid == FgPid(s.jobs) ==> NoForeground(s'.jobs))
  {
    hide First, MaxJid;
  }

  lemma StopKeeps(s: Shell, pid: int)
    requires Inv(s) && Enabled(s, Child(pid, true))
    ensures var s' := Handled(s, pid, true);
            && TableOk(s'.jobs)
            && (NoForeground(s.jobs) || pid == FgPid(s.jobs) ==> NoForeground(s'.jobs))
  {
    hide First;
  }

  // fg and bg meet neither a foreground job nor a free slot.
  lemma NoFatalBranch(s: Shell, argv: seq<string>)
    requires Inv(s) && s.phase == Reading
    ensures Target(s.jobs, argv).Some? ==>
              var i := Target(s.jobs, argv).value; i < |s.jobs| && (s.jobs[i].state == ST || s.jobs[i].state == BG)
  {
    hide First;
  }

  lemma ResumeKeeps(s: Shell, fg: bool, i: nat)
    requires Inv(s) && s.phase == Reading && i < |s.jobs| && (s.jobs[i].state == ST || s.jobs[i].state == BG)
    ensures Inv(Resumed(s, fg, i))
  {
  }

  // ---------- what the steps do ----------

  // Starting a job: the first free slot gets it, with the next number, and all else stays.
  lemma Launched(s: Shell, pid: int, bg: bool, cmdline: string)
    requires Inv(s) && Enabled(s, Launch(pid, bg, cmdline))
    ensures var s' := Step(s, Launch(pid, bg, cmdline));
            && (exists i :: 0 <= i < |s.jobs| && s.jobs[i].pid == 0 && (forall k :: 0 <= k < i ==> s.jobs[k].pid != 0)
                            && s'.jobs == s.jobs[i := Job(pid, s.nextjid, if bg then BG else FG, cmdline)])
            && s'.nextjid == (if s.nextjid < MAXJOBS then s.nextjid + 1 else 1)
            && s'.reaped == s.reaped && s'.phase == (if bg then Reading else Entering)
  {
    hide First, TableOk;
    assert s.jobs[WithPid(s.jobs, 0)].pid == 0;
  }

  // The flag is set by a child that was in the foreground.
  ghost predicate FlagAfter(s: Shell, pid: int, flag: bool) {
    flag <==> s.reaped || exists i :: 0 <= i < |s.jobs| && s.jobs[i].pid == pid && s.jobs[i].state == FG
  }

  lemma FlagIs(s: Shell, pid: int)
    requires TableOk(s.jobs) && pid >= 1
    ensures FlagAfter(s, pid, s.reaped || pid == FgPid(s.jobs))
  {
    hide First;
    if pid == FgPid(s.jobs) {
      assert s.jobs[Foreground(s.jobs)].pid == pid;
    }
  }

  // A stopped child is marked as stopped, whatever it was.
  lemma ChildStopped(s: Shell, pid: int)
    requires Inv(s) && Enabled(s, Child(pid, true))
    ensures var s' := Step(s, Child(pid, true));
            && |s'.jobs| == |s.jobs| && s'.nextjid == s.nextjid && s'.phase == s.phase && FlagAfter(s, pid, s'.reaped)
            && forall i :: 0 <= i < |s.jobs| ==>
                 s'.jobs[i] == if s.jobs[i].pid == pid then Job(pid, s.jobs[i].jid, ST, s.jobs[i].cmdline) else s.jobs[i]
  {
    hide First, FgPid, FlagAfter;
    FlagIs(s, pid);
  }

  // The slot of a child that ended is free, and the next number is above all that are left.
  lemma ChildEnded(s: Shell, pid: int)
    requires Inv(s) && Enabled(s, Child(pid, false))
    ensures var s' := Step(s, Child(pid, false));
            && |s'.jobs| == |s.jobs| && s'.phase == s.phase && FlagAfter(s, pid, s'.reaped)
            && (forall i :: 0 <= i < |s.jobs| ==> s'.jobs[i] == if s.jobs[i].pid == pid then NO_JOB else s.jobs[i])
            && (forall i :: 0 <= i < |s.jobs| ==> s'.jobs[i].jid < s'.nextjid)
            && (s'.nextjid == 1 || exists i :: 0 <= i < |s.jobs| && s'.jobs[i].jid == s'.nextjid - 1)
  {
    hide First, FgPid, FlagAfter, MaxJid;
    FlagIs(s, pid);
    DeleteIgnoresFlag(s, pid);
  }

  // What the argument of fg and bg says: a job number behind a percent sign, a pid otherwise
  ghost predicate Names(arg: string, byJid: bool, n: nat) {
    exists digits, tail :: IsNumber(digits) && Value(digits, 10) == n <= 0x7fff_ffff && (tail == "" || !IsDecimal(tail[0])) &&
                           arg == (if byJid then "%" else "") + (digits + tail)
  }

  function Key(j: Job, byJid: bool): int {
    if byJid then j.jid else j.pid
  }

  lemma NumberNamed(arg: string, byJid: bool, n: nat)
    requires Names(arg, byJid, n)
    ensures arg != "" && (arg[0] == '%' <==> byJid) && Atoi(if byJid then arg[1..] else arg) == n
  {
    hide Atoi, Value;
    var digits, tail :| IsNumber(digits) && Value(digits, 10) == n <= 0x7fff_ffff && (tail == "" || !IsDecimal(tail[0])) &&
                        arg == (if byJid then "%" else "") + (digits + tail);
    var number := digits + tail;
    assert "" + ("" + number) == number == "" + number && ("%" + number)[1..] == number;
    assert number[0] == digits[0] && '%' != digits[0];
    AtoiReads("", "", digits, tail);
  }

  lemma TargetNamed(jobs: seq<Job>, argv: seq<string>, byJid: bool, n: nat)
    requires |argv| >= 2 && Names(argv[1], byJid, n)
    ensures match Target(jobs, argv)
            case None => n == 0 || forall k :: 0 <= k < |jobs| ==> Key(jobs[k], byJid) != n
            case Some(i) => i < |jobs| && n != 0 && Key(jobs[i], byJid) == n && forall k :: 0 <= k < i ==> Key(jobs[k], byJid) != n
  {
    hide First, Atoi, Names;
    NumberNamed(argv[1], byJid, n);
  }

  // fg and bg act on the first job of that number, respectively on the job of that pid: fg puts it in the
  // foreground and waits for it, bg lets it run in the background.
  lemma Commanded(s: Shell, argv: seq<string>, byJid: bool, n: nat)
    requires Inv(s) && s.phase == Reading && |argv| >= 2 && (argv[0] == "fg" || argv[0] == "bg") && Names(argv[1], byJid, n)
    ensures Enabled(s, BgFg(argv))
    ensures var s' := Step(s, BgFg(argv));
            if n == 0 || forall i :: 0 <= i < |s.jobs| ==> Key(s.jobs[i], byJid) != n then s' == s else
              exists i :: 0 <= i < |s.jobs| && Key(s.jobs[i], byJid) == n && (forall k :: 0 <= k < i ==> Key(s.jobs[k], byJid) != n)
                          && s' == s.(jobs := s.jobs[i := s.jobs[i].(state := if argv[0] == "fg" then FG else BG)],
                                      phase := if argv[0] == "fg" then Entering else Reading)
  {
    hide Target, Names, Key, TableOk;
    TargetNamed(s.jobs, argv, byJid, n);
    NoFatalBranch(s, argv);
    if Target(s.jobs, argv).Some? {
      var i := Target(s.jobs, argv).value;
      assert s.jobs[i].state == BG ==> s.jobs[i := s.jobs[i].(state := BG)] == s.jobs;
    }
  }

  // An argument without a number names no job.
  ghost predicate NamesNothing(arg: string) {
    exists tail :: (arg == tail || arg == "%" + tail) && (tail == "" || IsOther(tail[0]))
  }

  predicate IsOther(c: char) {
    !IsSpace(c) && c != '+' && c != '-' && c != '%' && !IsDecimal(c)
  }

  lemma NoNumber(arg: string)
    requires NamesNothing(arg)
    ensures Atoi(if arg != "" && arg[0] == '%' then arg[1..] else arg) == 0
  {
    hide Atoi;
    var tail :| (arg == tail || arg == "%" + tail) && (tail == "" || IsOther(tail[0]));
    assert ("%" + tail)[1..] == tail == "" + tail;
    AtoiNothing("", tail);
  }

  lemma NothingNamed(s: Shell, argv: seq<string>)
    requires Inv(s) && s.phase == Reading && |argv| >= 1 && (|argv| >= 2 ==> NamesNothing(argv[1]))
    ensures Enabled(s, BgFg(argv)) && Step(s, BgFg(argv)) == s
  {
    hide First, Atoi, NamesNothing, Inv;
    if |argv| >= 2 {
      NoNumber(argv[1]);
    }
  }

  // ---------- what every step keeps ----------

  // Every step keeps the invariant, so none leads to `Dead`.
  lemma StepKeeps(s: Shell, e: Event)
    requires Inv(s) && Enabled(s, e)
    ensures Inv(Step(s, e))
  {
    hide First, TableOk, Target, MaxJid;
    match e {
      case Launch(pid, bg, cmdline) => AddKeeps(s, pid, if bg then BG else FG, cmdline);
      case BgFg(argv) =>
        NoFatalBranch(s, argv);
        if Target(s.jobs, argv).Some? {
          ResumeKeeps(s, argv[0] == "fg", Target(s.jobs, argv).value);
        }
      case Reset =>
      case Wake =>
      case Child(pid, stopped) =>
        if stopped {
          StopKeeps(s, pid);
        } else {
          DeleteKeeps(s, pid);
          DeleteIgnoresFlag(s, pid);
        }
        FgNotZero(s);
    }
  }

  lemma DeleteIgnoresFlag(s: Shell, pid: int)
    ensures Deleted(s.(reaped := true), pid) == Deleted(s, pid).(reaped := true)
    ensures Deleted(s, pid).reaped == s.reaped && Deleted(s, pid).phase == s.phase
  {
  }

  // fgpid is 0 exactly if there is no foreground job.
  lemma FgNotZero(s: Shell)
    requires TableOk(s.jobs)
    ensures FgPid(s.jobs) == 0 <==> NoForeground(s.jobs)
  {
    hide First;
  }

  // A run from state `s` on
  ghost predicate RunFrom(s: Shell, states: seq<Shell>, events: seq<Event>) {
    && |states| == |events| + 1 && states[0] == s
    && forall n :: 0 <= n < |events| ==> Enabled(states[n], events[n]) && states[n + 1] == Step(states[n], events[n])
  }

  // In every state of every run: at most one job is in the foreground, none when a command is read, slots
  // are free exactly if they have pid 0, live pids are distinct, and the shell has not died.
  lemma {:induction false} RunsAreSafe(states: seq<Shell>, events: seq<Event>, n: nat)
    requires RunFrom(Init(), states, events) && n < |states|
    ensures Inv(states[n])
  {
    hide Inv;
    InitOk();
    RunKeeps(Init(), states, events, n);
  }

  lemma {:induction false} RunKeeps(s: Shell, states: seq<Shell>, events: seq<Event>, n: nat)
    requires Inv(s) && RunFrom(s, states, events) && n < |states|
    ensures Inv(states[n])
  {
    hide Inv, Enabled, Step;
    if n > 0 {
      RunKeeps(s, states, events, n - 1);
      StepKeeps(states[n - 1], events[n - 1]);
    }
  }

  lemma InitOk()
    ensures Inv(Init())
  {
  }

  // waitfg looks at a flag that no child will set.
  ghost predicate Stuck(s: Shell) {
    s.phase == Waiting && !s.reaped && NoForeground(s.jobs)
  }

  lemma StuckStep(s: Shell, e: Event)
    requires Inv(s) && Stuck(s) && Enabled(s, e)
    ensures Stuck(Step(s, e))
  {
    hide First, TableOk, MaxJid;
    FgNotZero(s);
    match e {
      case Child(pid, stopped) =>
        if stopped {
          StopKeeps(s, pid);
        } else {
          DeleteKeeps(s, pid);
          DeleteIgnoresFlag(s, pid);
        }
      case _ =>
    }
  }

  // However a run goes on, the shell stays stuck.
  lemma {:induction false} StuckForever(s: Shell, states: seq<Shell>, events: seq<Event>, n: nat)
    requires Inv(s) && Stuck(s) && RunFrom(s, states, events) && n < |states|
    ensures Stuck(states[n])
  {
    hide Inv, Enabled, Step, Stuck;
    if n > 0 {
      StuckForever(s, states, events, n - 1);
      RunKeeps(s, states, events, n - 1);
      StuckStep(states[n - 1], events[n - 1]);
    }
  }

  lemma CanWake(s: Shell, stopped: bool)
    requires Inv(s) && s.phase == Waiting && !s.reaped && !NoForeground(s.jobs)
    ensures var e := Child(FgPid(s.jobs), stopped); Enabled(s, e) && Enabled(Step(s, e), Wake)
  {
    hide First, MaxJid;
    FgNotZero(s);
    DeleteIgnoresFlag(s.(reaped := true), FgPid(s.jobs));
  }

  ghost predicate Returns(s: Shell, states: seq<Shell>, events: seq<Event>) {
    RunFrom(s, states, events) && states[|events|].phase == Reading
  }

  // From a state in which waitfg waits, some run goes back to reading commands exactly if the flag is set or
  // there is a foreground job.
  lemma WaitfgReturns(s: Shell)
    requires Inv(s) && s.phase == Waiting
    ensures (exists states, events :: Returns(s, states, events)) <==> s.reaped || !NoForeground(s.jobs)
  {
    hide Inv, Step, Enabled, NoForeground;
    if s.reaped {
      WakeStep(s);
      assert Returns(s, [s, Step(s, Wake)], [Wake]);
    } else if !NoForeground(s.jobs) {
      CanWake(s, false);
      var e := Child(FgPid(s.jobs), false);
      var s1 := Step(s, e);
      WakeStep(s1);
      var states, events := [s, s1, Step(s1, Wake)], [e, Wake];
      assert forall n :: 0 <= n < |events| ==> Enabled(states[n], events[n]) && states[n + 1] == Step(states[n], events[n]);
      assert Returns(s, states, events);
    } else {
      forall states, events ensures !Returns(s, states, events) {
        if RunFrom(s, states, events) {
          StuckForever(s, states, events, |events|);
        }
      }
    }
  }

  lemma WakeStep(s: Shell)
    ensures Enabled(s, Wake) <==> s.phase == Waiting && s.reaped
    ensures Enabled(s, Wake) ==> Step(s, Wake) == s.(phase := Reading)
  {
  }

  // The lost signal: the foreground job ends before waitfg clears the flag.
  lemma LostSignal(s: Shell, pid: int, cmdline: string)
    requires Inv(s) && Enabled(s, Launch(pid, false, cmdline))
    ensures var s1 := Step(s, Launch(pid, false, cmdline));
            Enabled(s1, Child(pid, false)) &&
            var s2 := Step(s1, Child(pid, false));
            s2.reaped && Enabled(s2, Reset) &&
            var s3 := Step(s2, Reset);
            Stuck(s3)
  {
    hide First, MaxJid, TableOk;
    StepKeeps(s, Launch(pid, false, cmdline));
    var s1 := Step(s, Launch(pid, false, cmdline));
    LaunchedFirst(s, pid, cmdline);
    DeleteKeeps(s1, pid);
    DeleteIgnoresFlag(s1, pid);
  }

  lemma LaunchedFirst(s: Shell, pid: int, cmdline: string)
    requires Inv(s) && Enabled(s, Launch(pid, false, cmdline))
    ensures var jobs := Added(s, pid, FG, cmdline).jobs; FgPid(jobs) == pid && WithPid(jobs, pid) < |jobs|
  {
    hide First;
    var i := WithPid(s.jobs, 0);
    var jobs := Added(s, pid, FG, cmdline).jobs;
    assert jobs[i].state == FG && jobs[i].pid == pid;
  }
}
