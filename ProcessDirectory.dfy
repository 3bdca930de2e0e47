/**
 * Discovery of running engine processes. On Windows the listening sockets
 * printed by `netstat /ano | findstr LISTENING` are folded into a table from
 * pid to local ports and joined with the process list by pid; elsewhere the
 * port is read off each engine's command line.
 */
module ProcessDirectory {
  import opened Js

  // ---------------------------------------------------------------------------
  // The netstat table

  /** A kept netstat row: the owning pid and the local port, as `parseInt`
      reads them. */
  datatype Row = Row(pid: Number, port: Number)

  /** The row a line's whitespace-separated fields give: only lines of
      exactly five fields count; the pid is the fifth field (`i[4] || 1`),
      the port what follows the last ':' of the second. */
  function RowOfFields(fields: seq<string>): (r: Option<Row>)
    ensures r.Some? <==> |fields| == 5
  {
    if |fields| != 5 then None
    else
      var pid := if fields[4] == "" then Int(1) else ParseInt(fields[4]);
      Some(Row(pid, ParseInt(AfterLast(fields[1], ':'))))
  }

  /** The row one line of netstat output contributes, if any. */
  function NetstatRow(line: string): Option<Row> {
    RowOfFields(SplitWs(Trim(line)))
  }

  /** The kept rows of a sequence of lines, in order. */
  function Rows(lines: seq<string>): seq<Row> {
    if lines == [] then []
    else
      Rows(lines[..|lines| - 1]) + RowsOfLine(lines[|lines| - 1])
  }

  function RowsOfLine(line: string): seq<Row> {
    match NetstatRow(line)
    case Some(r) => [r]
    case None => []
  }

  function ListeningRows(stdout: string): seq<Row> {
    Rows(SplitOn(stdout, '\n'))
  }

  /** One `forEach` step: append the port to its pid's list, creating the
      list on first sight of the pid. */
  function AddRow(table: map<Number, seq<Number>>, row: Row): map<Number, seq<Number>> {
    table[row.pid := (if row.pid in table then table[row.pid] else []) + [row.port]]
  }

  /** The table built from a sequence of rows. */
  function PidTable(rows: seq<Row>): map<Number, seq<Number>> {
    if rows == [] then map[] else AddRow(PidTable(rows[..|rows| - 1]), rows[|rows| - 1])
  }

  /** The ports of the rows owned by `pid`, in row order: the reference the
      table is checked against. */
  function PortsOf(rows: seq<Row>, pid: Number): seq<Number> {
    if rows == [] then []
    else
      PortsOf(rows[..|rows| - 1], pid)
      + (if rows[|rows| - 1].pid == pid then [rows[|rows| - 1].port] else [])
  }

  predicate OwnsRow(rows: seq<Row>, pid: Number) {
    exists k :: 0 <= k < |rows| && rows[k].pid == pid
  }

  /** The table has an entry exactly for the pids that own a row, and each
      entry lists that pid's ports in row order. */
  lemma {:induction false} PidTableLookup(rows: seq<Row>, pid: Number)
    ensures pid in PidTable(rows) <==> OwnsRow(rows, pid)
    ensures pid in PidTable(rows) ==> PidTable(rows)[pid] == PortsOf(rows, pid) && |PortsOf(rows, pid)| > 0
    ensures pid !in PidTable(rows) ==> PortsOf(rows, pid) == []
  {
    if rows != [] {
      var init := rows[..|rows| - 1];
      var last := rows[|rows| - 1];
      PidTableLookup(init, pid);
      if OwnsRow(init, pid) {
        var k :| 0 <= k < |init| && init[k].pid == pid;
        assert rows[k] == init[k];
      }
      if last.pid == pid {
        assert rows[|rows| - 1].pid == pid;
      }
      if OwnsRow(rows, pid) && last.pid != pid {
        var k :| 0 <= k < |rows| && rows[k].pid == pid;
        assert init[k] == rows[k];
      }
    }
  }

  lemma RowsSnoc(lines: seq<string>, i: nat)
    requires i < |lines|
    ensures Rows(lines[..i + 1]) == Rows(lines[..i]) + RowsOfLine(lines[i])
  {
    assert lines[..i + 1][..i] == lines[..i];
  }

  lemma PidTableSnoc(rows: seq<Row>, row: Row)
    ensures PidTable(rows + [row]) == AddRow(PidTable(rows), row)
  {
    assert (rows + [row])[..|rows|] == rows;
  }

  /** `windowsPidTableNetstatANO`: splits the output into lines and folds
      them into the table. */
  method WindowsPidTable(stdout: string) returns (table: map<Number, seq<Number>>)
    ensures table == PidTable(ListeningRows(stdout))
  {
    var lines := SplitOn(stdout, '\n');
    table := PidTableOfLines(lines);
  }

  /** The `forEach` over the lines: each line is trimmed and split on runs of
      white space; a five-field line appends its port to its pid's list. */
  method PidTableOfLines(lines: seq<string>) returns (table: map<Number, seq<Number>>)
    ensures table == PidTable(Rows(lines))
  {
    table := map[];
    for i := 0 to |lines|
      invariant table == PidTable(Rows(lines[..i]))
    {
      RowsSnoc(lines, i);
      var fields := SplitWs(Trim(lines[i]));
      assert NetstatRow(lines[i]) == RowOfFields(fields);
      if |fields| == 5 {
        var pid := if fields[4] == "" then Int(1) else ParseInt(fields[4]);
        var port := ParseInt(AfterLast(fields[1], ':'));
        var portList := if pid in table then table[pid] else [];
        assert RowsOfLine(lines[i]) == [Row(pid, port)];
        PidTableSnoc(Rows(lines[..i]), Row(pid, port));
        table := table[pid := portList + [port]];
      } else {
        assert RowsOfLine(lines[i]) == [];
        assert Rows(lines[..i]) + [] == Rows(lines[..i]);
      }
    }
    assert lines[..|lines|] == lines;
  }

  /** A well-formed row: five words separated by runs of white space (the
      column padding of `netstat -ano`), with any white space around them
      (leading padding, a trailing `\r`), the second word `host:port` and the
      fifth the pid, gives that pid and port. */
  lemma NetstatRowOfFields(fields: seq<string>, gaps: seq<string>, lead: string, trail: string,
                           host: string, port: nat, pid: nat)
    requires |fields| == 5 && |gaps| == 4
    requires forall i :: 0 <= i < 5 ==> fields[i] != "" && !HasSpace(fields[i])
    requires forall i :: 0 <= i < 4 ==> IsSpaceRun(gaps[i])
    requires forall k :: 0 <= k < |lead| ==> IsSpace(lead[k])
    requires forall k :: 0 <= k < |trail| ==> IsSpace(trail[k])
    requires fields[1] == host + ":" + NatToDecimal(port) && fields[4] == NatToDecimal(pid)
    ensures NetstatRow(lead + JoinWith(fields, gaps) + trail) == Some(Row(Int(pid), Int(port)))
  {
    var core := JoinWith(fields, gaps);
    JoinWithEnds(fields, gaps);
    assert !IsSpace(fields[0][0]) && !IsSpace(fields[4][|fields[4]| - 1]);
    TrimPadded(lead, core, trail);
    SplitWsJoinWith(fields, gaps);
    RowOfWellFormedFields(fields, host, port, pid);
  }

  lemma RowOfWellFormedFields(fields: seq<string>, host: string, port: nat, pid: nat)
    requires |fields| == 5 && fields[4] != ""
    requires fields[1] == host + ":" + NatToDecimal(port) && fields[4] == NatToDecimal(pid)
    ensures RowOfFields(fields) == Some(Row(Int(pid), Int(port)))
  {
    var d := NatToDecimal(port);
    assert ':' !in d by {
      forall k | 0 <= k < |d| ensures d[k] != ':' {
        assert IsDigit(d[k]);
      }
    }
    assert fields[1] == host + [':'] + d;
    AfterLastOfJoin(host, ':', d);
    ParseIntOfNat(port);
    ParseIntOfNat(pid);
  }

  /** A listing of one well-formed row maps that row's pid to its port, e.g.
      `TCP 0.0.0.0:50123 0.0.0.0:0 LISTENING 1234` maps 1234 to [50123]. */
  lemma ListingOfOneRow(fields: seq<string>, host: string, port: nat, pid: nat)
    requires |fields| == 5
    requires forall i :: 0 <= i < 5 ==> fields[i] != "" && !HasSpace(fields[i])
    requires fields[1] == host + ":" + NatToDecimal(port) && fields[4] == NatToDecimal(pid)
    ensures PidTable(ListeningRowsOf(fields)) == map[Int(pid) := [Int(port)]]
  {
    var line := Join(fields, ' ');
    NoNewlineInWords(fields);
    JoinWithout(fields, ' ', '\n');
    SingleSpacedRow(fields, host, port, pid);
    assert '\n' !in line;
    OneLineRows(line);
    var row := Row(Int(pid), Int(port));
    assert RowsOfLine(line) == [row];
    assert ListeningRowsOf(fields) == [row];
    PidTableOfOne(row);
  }

  /** The single-spaced case of `NetstatRowOfFields`. */
  lemma SingleSpacedRow(fields: seq<string>, host: string, port: nat, pid: nat)
    requires |fields| == 5
    requires forall i :: 0 <= i < 5 ==> fields[i] != "" && !HasSpace(fields[i])
    requires fields[1] == host + ":" + NatToDecimal(port) && fields[4] == NatToDecimal(pid)
    ensures NetstatRow(Join(fields, ' ')) == Some(Row(Int(pid), Int(port)))
  {
    var line := Join(fields, ' ');
    var gaps := [" ", " ", " ", " "];
    JoinAsJoinWith(fields, gaps);
    assert "" + line + "" == line;
    NetstatRowOfFields(fields, gaps, "", "", host, port, pid);
  }

  lemma PidTableOfOne(row: Row)
    ensures PidTable([row]) == map[row.pid := [row.port]]
  {
    assert [row][..0] == [];
    assert PidTable([row]) == AddRow(map[], row);
    assert [] + [row.port] == [row.port];
  }

  lemma NoNewlineInWords(fields: seq<string>)
    requires forall i :: 0 <= i < |fields| ==> !HasSpace(fields[i])
    ensures forall i :: 0 <= i < |fields| ==> '\n' !in fields[i]
  {
    forall i | 0 <= i < |fields| ensures '\n' !in fields[i] {
      forall k | 0 <= k < |fields[i]| ensures fields[i][k] != '\n' {
        assert !IsSpace(fields[i][k]);
      }
    }
  }

  /** Output without a line break is one line. */
  lemma OneLineRows(line: string)
    requires '\n' !in line
    ensures ListeningRows(line) == RowsOfLine(line)
  {
    var lines := SplitOn(line, '\n');
    SplitOnAbsent(line, '\n');
    RowsOfOne(line);
    assert ListeningRows(line) == Rows(lines);
  }

  lemma RowsOfOne(line: string)
    ensures Rows([line]) == RowsOfLine(line)
  {
    assert [line][..0] == [];
  }

  function ListeningRowsOf(fields: seq<string>): seq<Row> {
    ListeningRows(Join(fields, ' '))
  }

  /** A line that is not five fields leaves the table as it was. */
  lemma MalformedLineIgnored(lines: seq<string>, line: string)
    requires |SplitWs(Trim(line))| != 5
    ensures PidTable(Rows(lines + [line])) == PidTable(Rows(lines))
  {
    var all := lines + [line];
    assert all[..|lines|] == lines;
    assert NetstatRow(line) == None;
    assert RowsOfLine(line) == [];
    assert Rows(all) == Rows(lines) + RowsOfLine(line);
    assert Rows(lines) + [] == Rows(lines);
  }

  // ---------------------------------------------------------------------------
  // Process records

  /** An element of the process list: pid, executable name and command line,
      either of which may be missing. */
  datatype ProcessInfo = ProcessInfo(pid: int, name: Option<string>, cmd: Option<string>)

  /** The `port` a record is given before parsing: a number taken from the
      netstat table, or text ("0", or the digits captured from a command
      line). */
  datatype RawPort = PortNumber(n: Number) | PortText(text: string)

  /** `{port: portsRaw, ...i}` */
  datatype Tagged = Tagged(port: RawPort, proc: ProcessInfo)

  /** `{port: parseInt(i.port), ...i, origin: i}`. The spread of `i` comes
      after `port` and carries `i.port`, so the parsed value is replaced by
      the raw one. */
  datatype ProcessRecord = ProcessRecord(port: RawPort, proc: ProcessInfo, origin: Tagged)

  function Finish(t: Tagged): ProcessRecord {
    ProcessRecord(t.port, t.proc, t)
  }

  /** `(i.name || "").includes("yak")` */
  predicate IsWindowsYak(p: ProcessInfo) {
    Includes(if p.name.Some? then p.name.value else "", "yak")
  }

  /** The first port of the pid's list, or "0" when the pid has no entry
      (the lookup throws and the catch keeps the default). */
  function WindowsPort(table: map<Number, seq<Number>>, pid: int): RawPort {
    if Int(pid) in table && |table[Int(pid)]| > 0 then PortNumber(table[Int(pid)][0]) else PortText("0")
  }

  /** A Windows record's port is the first port of the pid's own listening
      rows, or "0" when the pid owns none. */
  lemma WindowsPortOfRows(rows: seq<Row>, pid: int)
    ensures OwnsRow(rows, Int(pid)) ==> |PortsOf(rows, Int(pid))| > 0
    ensures OwnsRow(rows, Int(pid)) ==> WindowsPort(PidTable(rows), pid) == PortNumber(PortsOf(rows, Int(pid))[0])
    ensures !OwnsRow(rows, Int(pid)) ==> WindowsPort(PidTable(rows), pid) == PortText("0")
  {
    PidTableLookup(rows, Int(pid));
  }

  /** The records `fetchWindowsYakProcess` resolves with: the processes
      whose name includes "yak", in order, each tagged with its port and
      finished by the second `map`. */
  function WindowsYakProcesses(table: map<Number, seq<Number>>, procs: seq<ProcessInfo>): (r: seq<ProcessRecord>)
    ensures |r| == |Filter(IsWindowsYak, procs)|
    ensures forall k :: 0 <= k < |r| ==>
              && r[k].proc == Filter(IsWindowsYak, procs)[k]
              && r[k].port == WindowsPort(table, r[k].proc.pid)
              && r[k].origin == Tagged(r[k].port, r[k].proc)
  {
    var kept := Filter(IsWindowsYak, procs);
    seq(|kept|, k requires 0 <= k < |kept| => Finish(Tagged(WindowsPort(table, kept[k].pid), kept[k])))
  }

  /** `i.name === "yak" && i.cmd.includes("yak grpc")`; a missing command
      line throws inside the filter and counts as false. */
  predicate IsPosixYak(p: ProcessInfo) {
    p.name == Some("yak") && p.cmd.Some? && Includes(p.cmd.value, "yak grpc")
  }

  /** `/port\s+(\d+)/` tried at position `p` only: "port", at least one white
      space character, then the longest run of ASCII digits. */
  function PortCaptureAt(cmd: string, p: nat): Option<string>
    requires p <= |cmd|
  {
    if StartsWith(cmd[p..], "port") && p + 4 < |cmd| && IsSpace(cmd[p + 4]) then
      var d := LeadingDigits(cmd[SpaceRunEnd(cmd, p + 4)..], 10);
      if d != [] then Some(d) else None
    else None
  }

  /** The first capture of `/port\s+(\d+)/` at position `p` or later. */
  function PortCapture(cmd: string, p: nat): (r: Option<string>)
    requires p <= |cmd|
    ensures r.Some? ==> r.value != [] && AllDigits(r.value)
    decreases |cmd| - p
  {
    if PortCaptureAt(cmd, p).Some? then PortCaptureAt(cmd, p)
    else if p == |cmd| then None
    else PortCapture(cmd, p + 1)
  }

  /** The captured digits, or "0" when the pattern does not match (`exec`
      returns null and indexing it throws). */
  function PosixPort(p: ProcessInfo): RawPort {
    if p.cmd.None? then PortText("0")
    else match PortCapture(p.cmd.value, 0)
      case Some(d) => PortText(d)
      case None => PortText("0")
  }

  /** The records `fetchGeneralYakProcess` resolves with: the engine
      processes, in order, each tagged with the port its command line names
      and finished by the second `map`. */
  function PosixYakProcesses(procs: seq<ProcessInfo>): (r: seq<ProcessRecord>)
    ensures |r| == |Filter(IsPosixYak, procs)|
    ensures forall k :: 0 <= k < |r| ==>
              && r[k].proc == Filter(IsPosixYak, procs)[k]
              && r[k].port == PosixPort(r[k].proc)
              && r[k].origin == Tagged(r[k].port, r[k].proc)
  {
    var kept := Filter(IsPosixYak, procs);
    seq(|kept|, k requires 0 <= k < |kept| => Finish(Tagged(PosixPort(kept[k]), kept[k])))
  }

  /** Positions where the pattern cannot start do not change the capture. */
  lemma {:induction false} PortCaptureSkip(cmd: string, p: nat, q: nat)
    requires p <= q <= |cmd|
    requires forall k :: p <= k < q ==> PortCaptureAt(cmd, k).None?
    ensures PortCapture(cmd, p) == PortCapture(cmd, q)
    decreases q - p
  {
    if p < q {
      PortCaptureSkip(cmd, p + 1, q);
    }
  }

  /** `PortCapture` is the leftmost match: it captures at some position from
      `p` on, at which the pattern matches and before which it nowhere does,
      and it finds nothing exactly when no position from `p` on matches. */
  lemma {:induction false} PortCaptureLeftmost(cmd: string, p: nat)
    requires p <= |cmd|
    ensures PortCapture(cmd, p).None? <==> forall k :: p <= k <= |cmd| ==> PortCaptureAt(cmd, k).None?
    ensures PortCapture(cmd, p).Some? ==>
              exists k :: p <= k <= |cmd| && PortCaptureAt(cmd, k) == PortCapture(cmd, p) && NoCaptureBetween(cmd, p, k)
    decreases |cmd| - p
  {
    if PortCaptureAt(cmd, p).Some? {
      assert NoCaptureBetween(cmd, p, p);
    } else if p < |cmd| {
      PortCaptureLeftmost(cmd, p + 1);
      if PortCapture(cmd, p).Some? {
        var k :| p + 1 <= k <= |cmd| && PortCaptureAt(cmd, k) == PortCapture(cmd, p + 1) && NoCaptureBetween(cmd, p + 1, k);
        assert NoCaptureBetween(cmd, p, k);
      }
    }
  }

  predicate NoCaptureBetween(cmd: string, p: nat, k: nat)
    requires p <= k <= |cmd|
  {
    forall j :: p <= j < k ==> PortCaptureAt(cmd, j).None?
  }

  /** The `ps-yak-grpc` handler: the Windows join when `isWindows`, the
      command-line rule otherwise; a failed netstat or process listing
      rejects, and one still running keeps the handler pending. */
  function PsYakGrpc(isWindows: bool, netstat: Settled<string>, processes: Settled<seq<ProcessInfo>>): (r: Settled<seq<ProcessRecord>>)
    // On Windows a failed netstat rejects before the process listing is used
    ensures isWindows && netstat.Rejected? ==> r == Rejected(netstat.reason)
    ensures isWindows && netstat.Pending? ==> r.Pending?
    // otherwise the process listing's failure or wait is the handler's
    ensures (!isWindows || netstat.Resolved?) && processes.Rejected? ==> r == Rejected(processes.reason)
    ensures (!isWindows || netstat.Resolved?) && processes.Pending? ==> r.Pending?
    ensures r.Resolved? <==> processes.Resolved? && (!isWindows || netstat.Resolved?)
    ensures r.Resolved? && isWindows ==> r.value == WindowsYakProcesses(PidTable(ListeningRows(netstat.value)), processes.value)
    ensures r.Resolved? && !isWindows ==> r.value == PosixYakProcesses(processes.value)
  {
    if isWindows then
      match netstat
      case Rejected(e) => Rejected(e)
      case Pending => Pending
      case Resolved(stdout) =>
        match processes
        case Rejected(e) => Rejected(e)
        case Pending => Pending
        case Resolved(procs) => Resolved(WindowsYakProcesses(PidTable(ListeningRows(stdout)), procs))
    else
      match processes
      case Rejected(e) => Rejected(e)
      case Pending => Pending
      case Resolved(procs) => Resolved(PosixYakProcesses(procs))
  }

  /** A yak process that owns a listening row is reported with that row's
      port: the listing `TCP 0.0.0.0:50123 0.0.0.0:0 LISTENING 1234` and a
      process `yak.exe` with pid 1234 give one record with port 50123. */
  lemma WindowsRecordOfListener(fields: seq<string>, host: string, port: nat, pid: nat, name: string, cmd: Option<string>)
    requires |fields| == 5
    requires forall i :: 0 <= i < 5 ==> fields[i] != "" && !HasSpace(fields[i])
    requires fields[1] == host + ":" + NatToDecimal(port) && fields[4] == NatToDecimal(pid)
    requires Includes(name, "yak")
    ensures var proc := ProcessInfo(pid, Some(name), cmd);
            PsYakGrpc(true, Resolved(Join(fields, ' ')), Resolved([proc]))
              == Resolved([ProcessRecord(PortNumber(Int(port)), proc, Tagged(PortNumber(Int(port)), proc))])
  {
    var proc := ProcessInfo(pid, Some(name), cmd);
    var table := map[Int(pid) := [Int(port)]];
    ListingOfOneRow(fields, host, port, pid);
    assert WindowsPort(table, pid) == PortNumber(Int(port));
    WindowsListing(ListeningRowsOf(fields), Join(fields, ' '), table, proc);
  }

  lemma WindowsListing(rows: seq<Row>, stdout: string, table: map<Number, seq<Number>>, proc: ProcessInfo)
    requires rows == ListeningRows(stdout) && PidTable(rows) == table && IsWindowsYak(proc)
    ensures PsYakGrpc(true, Resolved(stdout), Resolved([proc])) == Resolved([Finish(Tagged(WindowsPort(table, proc.pid), proc))])
  {
    WindowsYakOfOne(table, proc);
  }

  lemma WindowsYakOfOne(table: map<Number, seq<Number>>, proc: ProcessInfo)
    requires IsWindowsYak(proc)
    ensures WindowsYakProcesses(table, [proc]) == [Finish(Tagged(WindowsPort(table, proc.pid), proc))]
  {
    assert [proc][1..] == [];
    assert Filter(IsWindowsYak, [proc]) == [proc];
    var r := WindowsYakProcesses(table, [proc]);
    assert |r| == 1 && r[0] == Finish(Tagged(WindowsPort(table, proc.pid), proc));
  }
}
