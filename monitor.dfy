/** The monitor daemon of treasure_monitor.c: it waits for SIGUSR1, reads one command from
    the command file, runs it against the record files and writes one text report into the
    output pipe, which it opens on first use. */
module Monitor {
  import opened Base
  import opened CText
  import opened Records

  /** The commands process_command tells apart. */
  datatype Command =
    | ListHunts
    | ListTreasures(hunt: string)
    | ViewTreasure(hunt: string, treasure: string)
    | Unknown

  /** process_command's decision: exactly "list_hunts", then sscanf with
      "list_treasures %s" returning 1, then sscanf with "view_treasure %s %s" returning 2. */
  function Parse(cmd: string): (c: Command)
    ensures c.ListHunts? <==> cmd == "list_hunts"
    ensures c.ListTreasures? ==> c.hunt != [] && NoSpace(c.hunt) && "list_treasures" <= cmd
    ensures c.ViewTreasure? ==>
      c.hunt != [] && NoSpace(c.hunt) && c.treasure != [] && NoSpace(c.treasure) &&
      "view_treasure" <= cmd
    ensures c.ListTreasures? <==>
      cmd != "list_hunts" && "list_treasures" <= cmd && !AllSpace(cmd[|"list_treasures"|..])
    ensures c.Unknown? <==>
      cmd != "list_hunts" &&
      (!("list_treasures" <= cmd) || AllSpace(cmd[|"list_treasures"|..])) &&
      (!("view_treasure" <= cmd) || AllSpace(cmd[|"view_treasure"|..]) ||
       AllSpace(ScanWord(cmd[|"view_treasure"|..]).value.1))
  {
    if cmd == "list_hunts" then ListHunts
    else match ScanAfter(cmd, "list_treasures")
      case Some((hunt, _)) => ListTreasures(hunt)
      case None =>
        match ScanPairAfter(cmd, "view_treasure")
        case Some((hunt, treasure)) => ViewTreasure(hunt, treasure)
        case None => Unknown
  }

  /** "list_treasures", a run of white space (possibly empty) and a hunt id parse back to
      that hunt, whatever white-space-led text follows. */
  lemma ParseListTreasures(sp: string, hunt: string, rest: string)
    requires AllSpace(sp)
    requires hunt != [] && NoSpace(hunt)
    requires rest == [] || IsSpace(rest[0])
    ensures Parse("list_treasures" + sp + hunt + rest) == ListTreasures(hunt)
  {
    var cmd := "list_treasures" + sp + hunt + rest;
    assert cmd[5] == 't';
    ScanAfterOf("list_treasures", sp, hunt, rest);
  }

  /** The command the hub writes: one blank, and nothing after the hunt id. */
  lemma ParseListSingleSpaced(hunt: string)
    requires hunt != [] && NoSpace(hunt)
    ensures Parse("list_treasures " + hunt) == ListTreasures(hunt)
  {
    var spaced := "list_treasures" + " " + hunt + [];
    assert spaced == "list_treasures " + hunt by {
      assert "list_treasures" + " " == "list_treasures ";
    }
    ParseListTreasures(" ", hunt, []);
  }

  /** A command starting with "view_treasure" reaches the view branch of the parser. */
  lemma ViewKeyword(x: string)
    ensures "view_treasure" + x != "list_hunts"
    ensures ScanAfter("view_treasure" + x, "list_treasures").None?
    ensures ScanPairAfter("view_treasure" + x, "view_treasure") == ScanPair(x)
  {
    var cmd := "view_treasure" + x;
    assert cmd[0] == 'v';
    assert cmd[..|"view_treasure"|] == "view_treasure";
    assert cmd[|"view_treasure"|..] == x;
  }

  /** "view_treasure", then a hunt id and a treasure id, each led by a run of white space
      (the second run not empty), parse back to both ids, whatever white-space-led text
      follows. */
  lemma ParseViewTreasure(sp: string, hunt: string, gap: string, treasure: string, rest: string)
    requires AllSpace(sp) && AllSpace(gap) && gap != []
    requires hunt != [] && NoSpace(hunt) && treasure != [] && NoSpace(treasure)
    requires rest == [] || IsSpace(rest[0])
    ensures Parse("view_treasure" + sp + hunt + gap + treasure + rest) == ViewTreasure(hunt, treasure)
  {
    var x := sp + hunt + gap + treasure + rest;
    assert "view_treasure" + sp + hunt + gap + treasure + rest == "view_treasure" + x;
    ViewKeyword(x);
    ScanPairOf(sp, hunt, gap, treasure, rest);
  }

  /** The command the hub writes, with single blanks and nothing after the treasure id. */
  lemma ParseViewSingleSpaced(hunt: string, treasure: string)
    requires hunt != [] && NoSpace(hunt) && treasure != [] && NoSpace(treasure)
    ensures Parse("view_treasure " + hunt + " " + treasure) == ViewTreasure(hunt, treasure)
  {
    var spaced := "view_treasure" + " " + hunt + " " + treasure + [];
    assert spaced == "view_treasure " + hunt + " " + treasure by {
      assert "view_treasure" + " " == "view_treasure ";
    }
    ParseViewTreasure(" ", hunt, " ", treasure, []);
  }

  /** The white-space directive also matches no white space at all, so a word glued to the
      keyword is taken as the hunt id. */
  lemma ParseGlued(hunt: string)
    requires hunt != [] && NoSpace(hunt)
    ensures Parse("list_treasures" + hunt) == ListTreasures(hunt)
  {
    ParseListTreasures([], hunt, []);
    assert "list_treasures" + [] + hunt + [] == "list_treasures" + hunt;
  }

  /** A view with one id makes sscanf return 1, not 2: the command is unknown. */
  lemma ParseViewOneWord(sp: string, hunt: string, rest: string)
    requires AllSpace(sp) && AllSpace(rest)
    requires hunt != [] && NoSpace(hunt)
    ensures Parse("view_treasure" + sp + hunt + rest) == Unknown
  {
    var x := sp + hunt + rest;
    assert "view_treasure" + sp + hunt + rest == "view_treasure" + x;
    ViewKeyword(x);
    ScanPairOfOne(sp, hunt, rest);
  }

  /** What main passes to process_command: one read of at most 255 bytes from the command
      file, NUL-terminated, so that the command ends at the first NUL. None when the read
      returns no bytes. */
  function ReadCommand(content: string): (r: Option<string>)
    ensures r.None? <==> content == []
    ensures r.Some? ==> |r.value| <= 255 && '\0' !in r.value && r.value <= content
    ensures r.Some? ==> |r.value| == |content| || |r.value| == 255 || content[|r.value|] == '\0'
  {
    if content == [] then None else Some(CString(Truncate(content, 255)))
  }

  /** A command of at most 255 characters without NUL is read back unchanged. */
  lemma ReadCommandOfShort(content: string)
    requires content != [] && |content| <= 255 && '\0' !in content
    ensures ReadCommand(content) == Some(content)
  {
    CStringOfPlain(content);
  }

  const UnknownCommand := "Error: Unknown command\n"
  const NoHuntsDirectory := "Error: Could not open hunts directory\n"
  const NoTreasuresFile := "Error: Could not open treasures file\n"
  const NoCommandFile := "Error: Could not open command file\n"
  const HuntsTitle := "=== List of Hunts ===\n"
  const TreasuresTitle := "=== Treasures in Hunt ===\n"

  /** The list_hunts line of a hunt whose record file exists: its whole-record count. */
  function HuntLine(name: string, f: RecordFile): string {
    name + ": " + Decimal(Count(f)) + " treasures\n"
  }

  predicate Listed(name: string, data: map<string, RecordFile>) {
    name != "." && name != ".." && name in data
  }

  /** One line per directory entry of hunts/ other than "." and ".." whose
      treasures.dat can be stat'ed, in the order readdir returns them. */
  function HuntLines(entries: seq<string>, data: map<string, RecordFile>): seq<string> {
    if entries == [] then []
    else
      var e := entries[|entries| - 1];
      HuntLines(entries[..|entries| - 1], data) + (if Listed(e, data) then [HuntLine(e, data[e])] else [])
  }

  function Concat(lines: seq<string>): string {
    if lines == [] then "" else Concat(lines[..|lines| - 1]) + lines[|lines| - 1]
  }

  /** The list_hunts report; `listing` is what opendir/readdir return for hunts/. */
  function HuntListing(listing: Option<seq<string>>, data: map<string, RecordFile>): string {
    match listing
    case None => NoHuntsDirectory
    case Some(entries) => HuntsTitle + Concat(HuntLines(entries, data))
  }

  function TreasureListing(hunt: string, data: map<string, RecordFile>): string {
    if hunt !in data then NoTreasuresFile
    else TreasuresTitle + ColumnHeader + Rule + Rows(data[hunt].records)
  }

  function Details(hunt: string, t: Treasure): string {
    "=== Treasure Details ===\nHunt ID: " + hunt + "\nTreasure ID: " + t.id + "\nUser: " + t.user
      + "\nCoordinates: " + t.latitude.fixed6 + ", " + t.longitude.fixed6
      + "\nClue: " + t.clue + "\nValue: " + Decimal(t.value) + "\n"
  }

  function NotFound(hunt: string, treasure: string): string {
    "Treasure with ID " + treasure + " not found in hunt " + hunt + "\n"
  }

  /** What view_treasure answers: the missing-file message when the hunt has no record file,
      otherwise the details of the first record with the id, or the not-found line. */
  function ViewReport(hunt: string, treasure: string, data: map<string, RecordFile>): (out: string)
    ensures hunt !in data ==> out == NoTreasuresFile
    ensures hunt in data && (forall j :: 0 <= j < |data[hunt].records| ==> data[hunt].records[j].id != treasure) ==>
      out == NotFound(hunt, treasure)
    ensures hunt in data ==> forall k ::
      (0 <= k < |data[hunt].records| && data[hunt].records[k].id == treasure &&
       (forall j :: 0 <= j < k ==> data[hunt].records[j].id != treasure)) ==>
      out == Details(hunt, data[hunt].records[k])
  {
    if hunt !in data then NoTreasuresFile
    else match FirstMatch(data[hunt].records, treasure)
      case Some(k) => Details(hunt, data[hunt].records[k])
      case None => NotFound(hunt, treasure)
  }

  /** The one message process_command sends for `cmd`. */
  function Response(cmd: string, data: map<string, RecordFile>, listing: Option<seq<string>>): string {
    match Parse(cmd)
    case ListHunts => HuntListing(listing, data)
    case ListTreasures(hunt) => TreasureListing(hunt, data)
    case ViewTreasure(hunt, treasure) => ViewReport(hunt, treasure, data)
    case Unknown => UnknownCommand
  }

  /** A view of an absent treasure is the textual not-found report, not an error. */
  lemma ViewOfAbsentTreasure(hunt: string, treasure: string, data: map<string, RecordFile>)
    requires hunt != [] && NoSpace(hunt) && treasure != [] && NoSpace(treasure)
    requires hunt in data
    requires forall j :: 0 <= j < |data[hunt].records| ==> data[hunt].records[j].id != treasure
    ensures Response("view_treasure " + hunt + " " + treasure, data, None) == NotFound(hunt, treasure)
  {
    ParseViewSingleSpaced(hunt, treasure);
  }

  lemma {:induction false} HuntLinesAppend(a: seq<string>, b: seq<string>, data: map<string, RecordFile>)
    ensures HuntLines(a + b, data) == HuntLines(a, data) + HuntLines(b, data)
  {
    if b != [] {
      assert (a + b)[..|a + b| - 1] == a + b[..|b| - 1];
      HuntLinesAppend(a, b[..|b| - 1], data);
    } else {
      assert a + b == a;
    }
  }

  /** Taking one entry out of two equal multisets leaves equal multisets. */
  lemma MultisetCancel(x: string, r: seq<string>, left: seq<string>, right: seq<string>)
    requires multiset([x] + r) == multiset(left + [x] + right)
    ensures multiset(r) == multiset(left + right)
  {
    assert multiset([x] + r) == multiset([x]) + multiset(r);
    assert multiset(left + [x] + right) == multiset(left) + multiset([x]) + multiset(right);
    assert multiset(left + right) == multiset(left) + multiset(right);
    forall y
      ensures multiset(r)[y] == multiset(left + right)[y]
    {
      assert multiset([x] + r)[y] == multiset([x])[y] + multiset(r)[y];
      assert multiset(left + [x] + right)[y] == multiset(left)[y] + multiset([x])[y] + multiset(right)[y];
    }
  }

  /** The lines of an entry in the middle of a listing count as if it came first. */
  lemma HuntLinesMiddle(x: string, left: seq<string>, right: seq<string>, data: map<string, RecordFile>)
    ensures multiset(HuntLines(left + [x] + right, data)) ==
      multiset(HuntLines([x], data)) + multiset(HuntLines(left + right, data))
  {
    HuntLinesAppend(left + [x], right, data);
    HuntLinesAppend(left, [x], data);
    HuntLinesAppend(left, right, data);
  }

  /** readdir may return the entries in any order: every order gives the same lines, each
      as often. */
  lemma {:induction false} HuntLinesPermutation(e1: seq<string>, e2: seq<string>, data: map<string, RecordFile>)
    requires multiset(e1) == multiset(e2)
    ensures multiset(HuntLines(e1, data)) == multiset(HuntLines(e2, data))
    decreases |e1|
  {
    if e1 == [] {
      assert e2 == [];
    } else {
      var x := e1[0];
      var r := e1[1..];
      assert e1 == [x] + r;
      assert x in multiset(e2);
      var k :| 0 <= k < |e2| && e2[k] == x;
      var left, right := e2[..k], e2[k + 1..];
      assert e2 == left + [x] + right;
      MultisetCancel(x, r, left, right);
      HuntLinesPermutation(r, left + right, data);
      HuntLinesAppend([x], r, data);
      HuntLinesMiddle(x, left, right, data);
    }
  }

  /** The listed lines are exactly those of the entries with a record file. */
  lemma {:induction false} HuntLinesMembers(entries: seq<string>, data: map<string, RecordFile>)
    ensures forall e :: e in entries && Listed(e, data) ==> HuntLine(e, data[e]) in HuntLines(entries, data)
    ensures forall line :: line in HuntLines(entries, data) ==>
      exists e :: e in entries && Listed(e, data) && line == HuntLine(e, data[e])
    ensures |HuntLines(entries, data)| <= |entries|
  {
    if entries != [] {
      var p := entries[..|entries| - 1];
      HuntLinesMembers(p, data);
      assert entries == p + [entries[|entries| - 1]];
    }
  }

  /** The read loop of list_hunts: skip "." and "..", stat each entry's record file and
      append a line for each one that exists. */
  method BuildHuntLines(entries: seq<string>, data: map<string, RecordFile>) returns (text: string)
    ensures text == Concat(HuntLines(entries, data))
  {
    text := "";
    var i := 0;
    while i < |entries|
      invariant i <= |entries|
      invariant text == Concat(HuntLines(entries[..i], data))
    {
      var e := entries[i];
      assert entries[..i + 1][..i] == entries[..i];
      ghost var before := HuntLines(entries[..i], data);
      if e == "." || e == ".." {
        assert HuntLines(entries[..i + 1], data) == before + [];
        assert before + [] == before;
        i := i + 1;
        continue;
      }
      if e in data {
        assert HuntLines(entries[..i + 1], data) == before + [HuntLine(e, data[e])];
        assert (before + [HuntLine(e, data[e])])[..|before|] == before;
        text := text + HuntLine(e, data[e]);
      } else {
        assert HuntLines(entries[..i + 1], data) == before + [];
        assert before + [] == before;
      }
      i := i + 1;
    }
    assert entries[..i] == entries;
  }

  /** One wake-up of the main loop: whether SIGUSR1 arrived before pause returned, the
      command file's content (None when it cannot be opened), the store and the hunts/
      listing at that moment, and whether the output pipe opens if it must. */
  datatype Wakeup = Wakeup(
    usr1: bool,
    mailbox: Option<string>,
    data: map<string, RecordFile>,
    listing: Option<seq<string>>,
    pipeOpens: bool)

  /** Whether a wake-up leads to a send_output call. */
  predicate Answers(w: Wakeup) {
    w.usr1 && (w.mailbox.None? || w.mailbox.value != [])
  }

  function Answered(ws: seq<Wakeup>): nat {
    if ws == [] then 0 else Answered(ws[..|ws| - 1]) + (if Answers(ws[|ws| - 1]) then 1 else 0)
  }

  class Monitor {
    /** command_received, set by the SIGUSR1 handler. */
    var commandReceived: bool
    /** output_fd != -1 */
    var outputOpen: bool
    /** The messages written into the output pipe, in order. */
    var written: seq<string>
    /** The number of send_output calls, counting those whose message was dropped. */
    var sends: nat

    constructor ()
      ensures !commandReceived && !outputOpen && written == [] && sends == 0
    {
      commandReceived, outputOpen, written, sends := false, false, [], 0;
    }

    /** handle_sigusr1 */
    method OnSigusr1()
      modifies this`commandReceived
      ensures commandReceived
    {
      commandReceived := true;
    }

    /** send_output: open the pipe only while it is not open yet; when that open fails the
        message is dropped and the next call tries again. */
    method SendOutput(message: string, pipeOpens: bool)
      modifies this`outputOpen, this`written, this`sends
      ensures sends == old(sends) + 1
      ensures outputOpen == (old(outputOpen) || pipeOpens)
      ensures written == old(written) + (if outputOpen then [message] else [])
    {
      sends := sends + 1;
      if !outputOpen {
        if !pipeOpens {
          return;
        }
        outputOpen := true;
      }
      written := written + [message];
    }

    method ListHunts(listing: Option<seq<string>>, data: map<string, RecordFile>, pipeOpens: bool)
      modifies this`outputOpen, this`written, this`sends
      ensures sends == old(sends) + 1
      ensures outputOpen == (old(outputOpen) || pipeOpens)
      ensures written == old(written) + (if outputOpen then [HuntListing(listing, data)] else [])
    {
      if listing.None? {
        SendOutput(NoHuntsDirectory, pipeOpens);
        return;
      }
      var lines := BuildHuntLines(listing.value, data);
      SendOutput(HuntsTitle + lines, pipeOpens);
    }

    method ListTreasures(hunt: string, data: map<string, RecordFile>, pipeOpens: bool)
      modifies this`outputOpen, this`written, this`sends
      ensures sends == old(sends) + 1
      ensures outputOpen == (old(outputOpen) || pipeOpens)
      ensures written == old(written) + (if outputOpen then [TreasureListing(hunt, data)] else [])
    {
      if hunt !in data {
        SendOutput(NoTreasuresFile, pipeOpens);
        return;
      }
      var rows := ScanRows(data[hunt]);
      SendOutput(TreasuresTitle + ColumnHeader + Rule + rows, pipeOpens);
    }

    method ViewTreasure(hunt: string, treasure: string, data: map<string, RecordFile>, pipeOpens: bool)
      modifies this`outputOpen, this`written, this`sends
      ensures sends == old(sends) + 1
      ensures outputOpen == (old(outputOpen) || pipeOpens)
      ensures written == old(written) + (if outputOpen then [ViewReport(hunt, treasure, data)] else [])
    {
      if hunt !in data {
        SendOutput(NoTreasuresFile, pipeOpens);
        return;
      }
      var found := ScanFirst(data[hunt], treasure);
      var output := if found.Some? then Details(hunt, found.value) else NotFound(hunt, treasure);
      SendOutput(output, pipeOpens);
    }

    /** process_command: every command, recognised or not, ends in exactly one send_output. */
    method ProcessCommand(cmd: string, data: map<string, RecordFile>, listing: Option<seq<string>>, pipeOpens: bool)
      modifies this`outputOpen, this`written, this`sends
      ensures sends == old(sends) + 1
      ensures outputOpen == (old(outputOpen) || pipeOpens)
      ensures written == old(written) + (if outputOpen then [Response(cmd, data, listing)] else [])
    {
      match Parse(cmd) {
        case ListHunts => ListHunts(listing, data, pipeOpens);
        case ListTreasures(hunt) => ListTreasures(hunt, data, pipeOpens);
        case ViewTreasure(hunt, treasure) => ViewTreasure(hunt, treasure, data, pipeOpens);
        case Unknown => SendOutput(UnknownCommand, pipeOpens);
      }
    }

    /** The body of main's loop after pause returns: only when command_received is set, clear
        it first, then read the command file once and serve what it holds. */
    method Wake(mailbox: Option<string>, data: map<string, RecordFile>, listing: Option<seq<string>>, pipeOpens: bool)
      modifies this
      ensures !commandReceived
      ensures !old(commandReceived) || (mailbox.Some? && mailbox.value == []) ==>
        outputOpen == old(outputOpen) && written == old(written) && sends == old(sends)
      ensures old(commandReceived) && mailbox.None? ==>
        sends == old(sends) + 1 && outputOpen == (old(outputOpen) || pipeOpens) &&
        written == old(written) + (if outputOpen then [NoCommandFile] else [])
      ensures old(commandReceived) && mailbox.Some? && mailbox.value != [] ==>
        sends == old(sends) + 1 && outputOpen == (old(outputOpen) || pipeOpens) &&
        written == old(written) +
          (if outputOpen then [Response(ReadCommand(mailbox.value).value, data, listing)] else [])
    {
      if !commandReceived {
        return;
      }
      commandReceived := false;
      if mailbox.None? {
        SendOutput(NoCommandFile, pipeOpens);
        return;
      }
      var cmd := ReadCommand(mailbox.value);
      if cmd.Some? {
        ProcessCommand(cmd.value, data, listing, pipeOpens);
      }
    }

    /** main's loop over a run of wake-ups: one send_output per wake-up that brought SIGUSR1
        and either an unopenable command file or a non-empty read. */
    method Serve(wakeups: seq<Wakeup>)
      requires !commandReceived
      modifies this
      ensures sends == old(sends) + Answered(wakeups)
      ensures |written| <= |old(written)| + Answered(wakeups)
      ensures old(written) <= written
      ensures !commandReceived
    {
      var i := 0;
      while i < |wakeups|
        invariant i <= |wakeups|
        invariant sends == old(sends) + Answered(wakeups[..i])
        invariant |written| <= |old(written)| + Answered(wakeups[..i])
        invariant old(written) <= written
        invariant !commandReceived
      {
        var w := wakeups[i];
        assert wakeups[..i + 1][..i] == wakeups[..i];
        if w.usr1 {
          OnSigusr1();
        }
        Wake(w.mailbox, w.data, w.listing, w.pipeOpens);
        i := i + 1;
      }
      assert wakeups[..i] == wakeups;
    }
  }
}
