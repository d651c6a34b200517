/** The interactive hub of treasure_hub.c: it starts and stops the monitor as a child
    process, tracks it in monitor_pid / monitor_active, and forwards queries to it through
    the single-slot command file and SIGUSR1. Fork results, waitpid results and the outcome
    of opening the command file are parameters. */
module Hub {
  import opened Base
  import opened CText
  import Monitor

  /** The characters that fit in the hub's 256-byte command buffers. */
  const MaxCommand: nat := 255

  type Pid = n: int | n > 0 witness 1

  /** What fork returns in the parent. */
  datatype Spawn = ForkFailed | Spawned(pid: Pid)

  /** A signal the hub sends with kill. */
  datatype Signal = Usr1(to: int) | Term(to: int)

  /** snprintf(cmd, 256, "list_treasures %s", hunt): the formatted command, cut to the
      buffer. */
  function ListTreasuresCommand(hunt: string): (cmd: string)
    ensures |cmd| <= MaxCommand && cmd <= "list_treasures " + hunt
    ensures |"list_treasures " + hunt| <= MaxCommand ==> cmd == "list_treasures " + hunt
    ensures |"list_treasures " + hunt| > MaxCommand ==> |cmd| == MaxCommand
  {
    Truncate("list_treasures " + hunt, MaxCommand)
  }

  /** snprintf(cmd, 256, "view_treasure %s %s", hunt, treasure): the formatted command, cut
      to the buffer. */
  function ViewTreasureCommand(hunt: string, treasure: string): (cmd: string)
    ensures |cmd| <= MaxCommand && cmd <= "view_treasure " + hunt + " " + treasure
    ensures |"view_treasure " + hunt + " " + treasure| <= MaxCommand ==>
      cmd == "view_treasure " + hunt + " " + treasure
    ensures |"view_treasure " + hunt + " " + treasure| > MaxCommand ==> |cmd| == MaxCommand
  {
    Truncate("view_treasure " + hunt + " " + treasure, MaxCommand)
  }

  /** An id as the hub's own sscanf %s stores it: non-empty, no white space, no NUL. */
  predicate Token(s: string) {
    s != [] && NoSpace(s) && '\0' !in s
  }

  /** The monitor reads "list_treasures <hunt>" back from the command file as the same hunt. */
  lemma ListTreasuresRoundTrip(hunt: string)
    requires Token(hunt) && |"list_treasures " + hunt| <= MaxCommand
    ensures Monitor.ReadCommand(ListTreasuresCommand(hunt)) == Some("list_treasures " + hunt)
    ensures Monitor.Parse("list_treasures " + hunt) == Monitor.ListTreasures(hunt)
  {
    var cmd := "list_treasures " + hunt;
    assert '\0' !in cmd;
    Monitor.ReadCommandOfShort(cmd);
    Monitor.ParseListSingleSpaced(hunt);
  }

  /** The monitor reads "view_treasure <hunt> <treasure>" back as the same two ids. */
  lemma ViewTreasureRoundTrip(hunt: string, treasure: string)
    requires Token(hunt) && Token(treasure) && |"view_treasure " + hunt + " " + treasure| <= MaxCommand
    ensures Monitor.ReadCommand(ViewTreasureCommand(hunt, treasure)) ==
      Some("view_treasure " + hunt + " " + treasure)
    ensures Monitor.Parse("view_treasure " + hunt + " " + treasure) == Monitor.ViewTreasure(hunt, treasure)
  {
    var cmd := "view_treasure " + hunt + " " + treasure;
    assert '\0' !in cmd;
    Monitor.ReadCommandOfShort(cmd);
    Monitor.ParseViewSingleSpaced(hunt, treasure);
  }

  /** The lines the hub prints on stdout itself. */
  const NoMonitor := "No monitor is currently running\n"
  const StillRunning := "Error: Monitor is still running. Please stop it first.\n"
  const UnknownLine := "Unknown command. Type 'help' for available commands.\n"
  const StoppingBeforeExit := "Stopping monitor before exit...\n"
  const Goodbye := "Goodbye!\n"

  function AlreadyRunning(pid: int): string {
    "Monitor is already running (PID: " + Decimal(pid) + ")\n"
  }

  function Started(pid: int): string {
    "Monitor started with PID: " + Decimal(pid) + "\n"
  }

  function Stopping(pid: int): string {
    "Stopping monitor (PID: " + Decimal(pid) + ")...\n"
  }

  /** The hub's interactive commands, in the order main tries them. */
  datatype HubCommand =
    | Exit
    | StartMonitor
    | StopMonitor
    | ListHunts
    | ListTreasures(hunt: string)
    | ViewTreasure(hunt: string, treasure: string)
    | CalculateScore(hunt: string)
    | CalculateAllScores
    | Unrecognized

  /** main's decision for one input line (its newline already cut off). */
  function ParseLine(line: string): (c: HubCommand)
    ensures c.ListTreasures? ==> c.hunt != [] && NoSpace(c.hunt) && forall ch :: ch in c.hunt ==> ch in line
    ensures c.ViewTreasure? ==> c.hunt != [] && NoSpace(c.hunt) && c.treasure != [] && NoSpace(c.treasure)
    ensures c.ViewTreasure? ==> (forall ch :: ch in c.hunt ==> ch in line) && forall ch :: ch in c.treasure ==> ch in line
    ensures c == Exit <==> line == "exit"
    ensures c == StartMonitor <==> line == "start_monitor"
    ensures c == StopMonitor <==> line == "stop_monitor"
    ensures c == ListHunts <==> line == "list_hunts"
    ensures c.ListTreasures? <==> "list_treasures" <= line && !AllSpace(line[|"list_treasures"|..])
    ensures c.ViewTreasure? ==> "view_treasure" <= line
    ensures c.CalculateScore? ==> "calculate_score" <= line
    ensures c == CalculateAllScores ==> line == "calculate_all_scores"
  {
    if line == "exit" then Exit
    else if line == "start_monitor" then StartMonitor
    else if line == "stop_monitor" then StopMonitor
    else if line == "list_hunts" then ListHunts
    else match ScanAfter(line, "list_treasures")
      case Some((hunt, _)) => ListTreasures(hunt)
      case None =>
        match ScanPairAfter(line, "view_treasure")
        case Some((hunt, treasure)) => ViewTreasure(hunt, treasure)
        case None => ScoreOrUnrecognized(line)
  }

  function ScoreOrUnrecognized(line: string): HubCommand {
    match ScanAfter(line, "calculate_score")
    case Some((hunt, _)) => CalculateScore(hunt)
    case None => if line == "calculate_all_scores" then CalculateAllScores else Unrecognized
  }

  /** "list_treasures", a run of white space (possibly empty) and a hunt id make the hub
      query that hunt, whatever white-space-led text follows. */
  lemma ParseLineListTreasures(sp: string, hunt: string, rest: string)
    requires AllSpace(sp)
    requires hunt != [] && NoSpace(hunt)
    requires rest == [] || IsSpace(rest[0])
    ensures ParseLine("list_treasures" + sp + hunt + rest) == ListTreasures(hunt)
  {
    var line := "list_treasures" + sp + hunt + rest;
    assert line[0] == 'l' && line[5] == 't';
    assert line != "exit" && line != "start_monitor" && line != "stop_monitor" && line != "list_hunts";
    ScanAfterOf("list_treasures", sp, hunt, rest);
  }

  /** "view_treasure", then a hunt id and a treasure id, each led by a run of white space
      (the second run not empty), make the hub query both ids, whatever white-space-led text
      follows. */
  lemma ParseLineViewTreasure(sp: string, hunt: string, gap: string, treasure: string, rest: string)
    requires AllSpace(sp) && AllSpace(gap) && gap != []
    requires hunt != [] && NoSpace(hunt) && treasure != [] && NoSpace(treasure)
    requires rest == [] || IsSpace(rest[0])
    ensures ParseLine("view_treasure" + sp + hunt + gap + treasure + rest) == ViewTreasure(hunt, treasure)
  {
    var x := sp + hunt + gap + treasure + rest;
    var line := "view_treasure" + sp + hunt + gap + treasure + rest;
    assert line == "view_treasure" + x;
    assert line[0] == 'v';
    assert line != "exit" && line != "start_monitor" && line != "stop_monitor" && line != "list_hunts";
    Monitor.ViewKeyword(x);
    ScanPairOf(sp, hunt, gap, treasure, rest);
  }

  /** Whatever the hub reads from a line, the monitor reads the same from the command the
      hub builds for it (as long as that command fits the buffer). */
  lemma HubAndMonitorAgree(line: string)
    requires '\0' !in line
    ensures (ParseLine(line).ListTreasures? && |"list_treasures " + ParseLine(line).hunt| <= MaxCommand) ==>
      var hunt := ParseLine(line).hunt;
      Monitor.Parse(Monitor.ReadCommand(ListTreasuresCommand(hunt)).value) == Monitor.ListTreasures(hunt)
    ensures (ParseLine(line).ViewTreasure? &&
      |"view_treasure " + ParseLine(line).hunt + " " + ParseLine(line).treasure| <= MaxCommand) ==>
      var c := ParseLine(line);
      Monitor.Parse(Monitor.ReadCommand(ViewTreasureCommand(c.hunt, c.treasure)).value) ==
        Monitor.ViewTreasure(c.hunt, c.treasure)
  {
    var c := ParseLine(line);
    if c.ListTreasures? {
      if |"list_treasures " + c.hunt| <= MaxCommand {
        ListTreasuresRoundTrip(c.hunt);
      }
    } else if c.ViewTreasure? {
      if |"view_treasure " + c.hunt + " " + c.treasure| <= MaxCommand {
        ViewTreasureRoundTrip(c.hunt, c.treasure);
      }
    }
  }

  class Hub {
    /** monitor_pid */
    var monitorPid: int
    /** monitor_active */
    var monitorActive: bool
    /** The contents of /tmp/treasure_monitor_cmd; None before it is first created. */
    var mailbox: Option<string>
    /** The signals sent with kill, in order. */
    var signals: seq<Signal>

    /** A monitor is recorded exactly when its pid is. */
    ghost predicate Valid()
      reads this
    {
      (monitorActive ==> monitorPid > 0) && (!monitorActive ==> monitorPid == 0)
    }

    constructor ()
      ensures Valid()
      ensures !monitorActive && monitorPid == 0 && mailbox == None && signals == []
    {
      monitorPid, monitorActive, mailbox, signals := 0, false, None, [];
    }

    /** start_monitor: while a monitor is recorded nothing happens; otherwise a failed fork
        changes nothing and a successful one records the child. `out` is what it prints on
        stdout (a failed fork goes to stderr). */
    method StartMonitor(spawn: Spawn) returns (out: string)
      requires Valid()
      modifies this`monitorPid, this`monitorActive
      ensures Valid()
      ensures old(monitorActive) || spawn.ForkFailed? ==>
        monitorActive == old(monitorActive) && monitorPid == old(monitorPid)
      ensures !old(monitorActive) && spawn.Spawned? ==> monitorActive && monitorPid == spawn.pid
      ensures out == (if old(monitorActive) then AlreadyRunning(old(monitorPid))
                      else if spawn.Spawned? then Started(spawn.pid) else "")
    {
      if monitorActive {
        return AlreadyRunning(monitorPid);
      }
      out := "";
      match spawn {
        case ForkFailed =>
        case Spawned(pid) =>
          monitorPid := pid;
          monitorActive := true;
          out := Started(pid);
      }
    }

    /** stop_monitor: only a termination request to the recorded monitor; the state changes
        later, in the SIGCHLD handler. */
    method StopMonitor() returns (out: string)
      requires Valid()
      modifies this`signals
      ensures signals == old(signals) + (if monitorActive then [Term(monitorPid)] else [])
      ensures out == (if monitorActive then Stopping(monitorPid) else NoMonitor)
    {
      if !monitorActive {
        return NoMonitor;
      }
      out := Stopping(monitorPid);
      signals := signals + [Term(monitorPid)];
    }

    /** handle_sigchld, with `reaped` the value waitpid(monitor_pid, &status, WNOHANG)
        returns: the monitor is forgotten only when that is monitor_pid. The returned notice
        is the status line the handler prints. */
    method OnChildExit(reaped: int, status: int) returns (notice: Option<int>)
      requires Valid()
      modifies this`monitorPid, this`monitorActive
      ensures Valid()
      ensures reaped == old(monitorPid) ==> !monitorActive && monitorPid == 0 && notice == Some(status)
      ensures reaped != old(monitorPid) ==>
        monitorActive == old(monitorActive) && monitorPid == old(monitorPid) && notice == None
    {
      if reaped == monitorPid {
        monitorActive := false;
        monitorPid := 0;
        return Some(status);
      }
      return None;
    }

    /** send_command_to_monitor: truncate and rewrite the command file, then signal the
        monitor. The file holds one command: an unread earlier one is lost. */
    method SendCommand(cmd: string, mailboxOpens: bool)
      modifies this`mailbox, this`signals
      ensures mailboxOpens ==> mailbox == Some(cmd) && signals == old(signals) + [Usr1(monitorPid)]
      ensures !mailboxOpens ==> mailbox == old(mailbox) && signals == old(signals)
    {
      if !mailboxOpens {
        return;
      }
      mailbox := Some(cmd);
      signals := signals + [Usr1(monitorPid)];
    }

    /** The query commands send nothing, and print the no-monitor line, while no monitor is
        recorded. What the monitor answers is copied to stdout by read_monitor_output, which is
        not part of this model, so `out` is empty when a command is sent. */
    method Query(cmd: string, mailboxOpens: bool) returns (out: string)
      requires Valid()
      modifies this`mailbox, this`signals
      ensures monitorActive && mailboxOpens ==>
        mailbox == Some(cmd) && signals == old(signals) + [Usr1(monitorPid)]
      ensures !monitorActive || !mailboxOpens ==> mailbox == old(mailbox) && signals == old(signals)
      ensures out == (if monitorActive then "" else NoMonitor)
    {
      if !monitorActive {
        return NoMonitor;
      }
      SendCommand(cmd, mailboxOpens);
      out := "";
    }

    method ListHunts(mailboxOpens: bool) returns (out: string)
      requires Valid()
      modifies this`mailbox, this`signals
      ensures monitorActive && mailboxOpens ==>
        mailbox == Some("list_hunts") && signals == old(signals) + [Usr1(monitorPid)]
      ensures !monitorActive || !mailboxOpens ==> mailbox == old(mailbox) && signals == old(signals)
      ensures out == (if monitorActive then "" else NoMonitor)
    {
      out := Query("list_hunts", mailboxOpens);
    }

    method ListTreasures(hunt: string, mailboxOpens: bool) returns (out: string)
      requires Valid()
      modifies this`mailbox, this`signals
      ensures monitorActive && mailboxOpens ==>
        mailbox == Some(ListTreasuresCommand(hunt)) && signals == old(signals) + [Usr1(monitorPid)]
      ensures !monitorActive || !mailboxOpens ==> mailbox == old(mailbox) && signals == old(signals)
      ensures out == (if monitorActive then "" else NoMonitor)
    {
      out := Query(ListTreasuresCommand(hunt), mailboxOpens);
    }

    method ViewTreasure(hunt: string, treasure: string, mailboxOpens: bool) returns (out: string)
      requires Valid()
      modifies this`mailbox, this`signals
      ensures monitorActive && mailboxOpens ==>
        mailbox == Some(ViewTreasureCommand(hunt, treasure)) && signals == old(signals) + [Usr1(monitorPid)]
      ensures !monitorActive || !mailboxOpens ==> mailbox == old(mailbox) && signals == old(signals)
      ensures out == (if monitorActive then "" else NoMonitor)
    {
      out := Query(ViewTreasureCommand(hunt, treasure), mailboxOpens);
    }

    /** One iteration of main's loop. `quit` is whether the loop ends: only on "exit", and
        only while no monitor is recorded. `out` is what the hub itself prints for the line. */
    method Step(line: string, spawn: Spawn, mailboxOpens: bool) returns (quit: bool, out: string)
      requires Valid()
      modifies this
      ensures Valid()
      ensures quit <==> ParseLine(line) == Exit && !old(monitorActive)
      ensures !ParseLine(line).StartMonitor? ==>
        monitorActive == old(monitorActive) && monitorPid == old(monitorPid)
      ensures (!ParseLine(line).ListHunts? && !ParseLine(line).ListTreasures? &&
        !ParseLine(line).ViewTreasure?) ==> mailbox == old(mailbox)
      ensures ParseLine(line).StartMonitor? && !old(monitorActive) && spawn.Spawned? ==>
        monitorActive && monitorPid == spawn.pid
      ensures ParseLine(line).StopMonitor? ==>
        signals == old(signals) + (if old(monitorActive) then [Term(old(monitorPid))] else [])
      ensures ParseLine(line).ListHunts? && old(monitorActive) && mailboxOpens ==>
        mailbox == Some("list_hunts") && signals == old(signals) + [Usr1(old(monitorPid))]
      ensures ParseLine(line).ListTreasures? && old(monitorActive) && mailboxOpens ==>
        mailbox == Some(ListTreasuresCommand(ParseLine(line).hunt)) &&
        signals == old(signals) + [Usr1(old(monitorPid))]
      ensures ParseLine(line).ViewTreasure? && old(monitorActive) && mailboxOpens ==>
        mailbox == Some(ViewTreasureCommand(ParseLine(line).hunt, ParseLine(line).treasure)) &&
        signals == old(signals) + [Usr1(old(monitorPid))]
      ensures !old(monitorActive) || !mailboxOpens ==>
        mailbox == old(mailbox) && (!ParseLine(line).StopMonitor? ==> signals == old(signals))
      ensures (!ParseLine(line).StopMonitor? && !ParseLine(line).ListHunts? &&
        !ParseLine(line).ListTreasures? && !ParseLine(line).ViewTreasure?) ==> signals == old(signals)
      ensures out == match ParseLine(line)
        case Exit => if old(monitorActive) then StillRunning else ""
        case StartMonitor =>
          if old(monitorActive) then AlreadyRunning(old(monitorPid))
          else if spawn.Spawned? then Started(spawn.pid) else ""
        case StopMonitor => if old(monitorActive) then Stopping(old(monitorPid)) else NoMonitor
        case ListHunts => if old(monitorActive) then "" else NoMonitor
        case ListTreasures(_) => if old(monitorActive) then "" else NoMonitor
        case ViewTreasure(_, _) => if old(monitorActive) then "" else NoMonitor
        case CalculateScore(_) => ""
        case CalculateAllScores => ""
        case Unrecognized => UnknownLine
    {
      quit, out := false, "";
      match ParseLine(line) {
        case Exit =>
          quit := !monitorActive;
          if monitorActive {
            out := StillRunning;
          }
        case StartMonitor =>
          out := StartMonitor(spawn);
        case StopMonitor =>
          out := StopMonitor();
        case ListHunts =>
          out := ListHunts(mailboxOpens);
        case ListTreasures(hunt) =>
          out := ListTreasures(hunt, mailboxOpens);
        case ViewTreasure(hunt, treasure) =>
          out := ViewTreasure(hunt, treasure, mailboxOpens);
        case CalculateScore(_) =>
        case CalculateAllScores =>
        case Unrecognized =>
          out := UnknownLine;
      }
    }

    /** After the loop: a monitor still recorded (the loop ended at end of input) is sent
        SIGTERM. `out` is what main prints before it returns. */
    method Shutdown() returns (out: string)
      requires Valid()
      modifies this`signals
      ensures signals == old(signals) + (if monitorActive then [Term(monitorPid)] else [])
      ensures out == (if monitorActive then StoppingBeforeExit else "") + Goodbye
    {
      out := Goodbye;
      if monitorActive {
        signals := signals + [Term(monitorPid)];
        out := StoppingBeforeExit + Goodbye;
      }
    }
  }
}
