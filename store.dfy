/** The treasure manager of main.c: the hunts/ tree as mutable state, the record-store
    operations that read and rewrite hunts/<hunt>/treasures.dat, and the command-line
    dispatcher with its exit codes. */
module Store {
  import opened Base
  import opened CText
  import opened Records

  datatype AddStatus = Added | OpenFailed | WriteFailed

  /** The command-line forms main accepts. */
  datatype CliCommand =
    | Add(hunt: string)
    | List(hunt: string)
    | View(hunt: string, treasure: string)
    | RemoveTreasure(hunt: string, treasure: string)
    | RemoveHunt(hunt: string)

  /** main's argv dispatch: argv[0] is the program name. None is the usage error (exit 1). */
  function ParseArgs(argv: seq<string>): (r: Option<CliCommand>)
    ensures |argv| < 3 ==> r.None?
    ensures r.Some? <==>
      (|argv| == 3 && argv[1] in {"--add", "--list", "--remove_hunt"}) ||
      (|argv| == 4 && argv[1] in {"--view", "--remove_treasure"})
    ensures r.Some? ==> r.value.hunt == argv[2]
    ensures r.Some? ==> (r.value.Add? <==> argv[1] == "--add")
    ensures r.Some? ==> (r.value.List? <==> argv[1] == "--list")
    ensures r.Some? ==> (r.value.View? <==> argv[1] == "--view")
    ensures r.Some? ==> (r.value.RemoveTreasure? <==> argv[1] == "--remove_treasure")
    ensures r.Some? ==> (r.value.RemoveHunt? <==> argv[1] == "--remove_hunt")
    ensures r.Some? && |argv| == 4 ==>
      (r.value.View? || r.value.RemoveTreasure?) && r.value.treasure == argv[3]
  {
    if |argv| < 3 then None
    else if argv[1] == "--add" && |argv| == 3 then Some(Add(argv[2]))
    else if argv[1] == "--list" && |argv| == 3 then Some(List(argv[2]))
    else if argv[1] == "--view" && |argv| == 4 then Some(View(argv[2], argv[3]))
    else if argv[1] == "--remove_treasure" && |argv| == 4 then Some(RemoveTreasure(argv[2], argv[3]))
    else if argv[1] == "--remove_hunt" && |argv| == 3 then Some(RemoveHunt(argv[2]))
    else None
  }

  /** The exit status of main: 1 for a usage error (too few or too many arguments, or an
      option that does not take that many), 0 for every recognised command, whether or not
      the operation itself succeeded. */
  function ExitCode(argv: seq<string>): (code: int)
    ensures code == 0 || code == 1
    ensures code == 1 <==>
      |argv| < 3 || |argv| > 4 ||
      (|argv| == 3 && argv[1] !in {"--add", "--list", "--remove_hunt"}) ||
      (|argv| == 4 && argv[1] !in {"--view", "--remove_treasure"})
  {
    if ParseArgs(argv).None? then 1 else 0
  }

  /** What --list prints for a hunt whose record file exists; `mtime` is ctime's text for
      the file's modification time, newline included. */
  function CliListing(hunt: string, f: RecordFile, mtime: string): string {
    CliListingHeader(hunt, f, mtime) + Rows(f.records)
  }

  function CliListingHeader(hunt: string, f: RecordFile, mtime: string): string {
    "Hunt: " + hunt + "\nFile size: " + Decimal(f.Size()) + " bytes\nLast modified: " + mtime
      + "\nTreasures:\n" + ColumnHeader + Rule
  }

  function CliDetails(t: Treasure): string {
    "\nTreasure Details:\nID: " + t.id + "\nUser: " + t.user
      + "\nCoordinates: " + t.latitude.fixed6 + ", " + t.longitude.fixed6
      + "\nClue: " + t.clue + "\nValue: " + Decimal(t.value) + "\n"
  }

  function CliNotFound(treasure: string): string {
    "Treasure with ID " + treasure + " not found.\n"
  }

  /** print_usage, which main prints for a usage error. */
  const Usage := "Usage:\n"
    + "  treasure_manager --add <hunt_id>\n"
    + "  treasure_manager --list <hunt_id>\n"
    + "  treasure_manager --view <hunt_id> <treasure_id>\n"
    + "  treasure_manager --remove_treasure <hunt_id> <treasure_id>\n"
    + "  treasure_manager --remove_hunt <hunt_id>\n"

  /** The six prompts add_treasure prints once the record file is open. */
  const AddPrompts := "Enter treasure ID: " + "Enter your name: " + "Enter latitude: "
    + "Enter longitude: " + "Enter clue: " + "Enter value: "

  const AddedLine := "Treasure added successfully!\n"

  function HuntRemoved(hunt: string): string {
    "Hunt " + hunt + " removed successfully.\n"
  }

  /** What --view prints for a hunt whose record file holds `rs`: the details of the first
      record with the id, or the not-found line when there is none. */
  function CliView(rs: seq<Treasure>, treasure: string): (out: string)
    ensures (forall j :: 0 <= j < |rs| ==> rs[j].id != treasure) ==> out == CliNotFound(treasure)
    ensures forall k ::
      (0 <= k < |rs| && rs[k].id == treasure && (forall j :: 0 <= j < k ==> rs[j].id != treasure)) ==>
      out == CliDetails(rs[k])
  {
    match FirstMatch(rs, treasure)
    case Some(k) => CliDetails(rs[k])
    case None => CliNotFound(treasure)
  }

  /** The file tree under the working directory that the program touches. */
  class HuntStore {
    /** hunts/ exists. */
    var root: bool
    /** The hunts/<hunt> directories. */
    var dirs: set<string>
    /** hunts/<hunt>/treasures.dat */
    var data: map<string, RecordFile>
    /** hunts/<hunt>/treasures.tmp, the survivors of a delete before they replace the original. */
    var temp: map<string, RecordFile>
    /** hunts/<hunt>/logged_hunt, one entry per logged operation (timestamps not modelled). */
    var logs: map<string, seq<string>>
    /** The logged_hunt-<hunt> links beside hunts/. */
    var aliases: set<string>

    /** Every file of a hunt lives in that hunt's directory, and hunt directories live in hunts/. */
    ghost predicate Valid()
      reads this
    {
      data.Keys <= dirs && temp.Keys <= dirs && logs.Keys <= dirs && (dirs != {} ==> root)
    }

    /** The contents of a hunt's record file, or the empty file when there is none. */
    function FileOf(hunt: string): RecordFile
      reads this
    {
      if hunt in data then data[hunt] else EmptyFile
    }

    function LogOf(hunt: string): seq<string>
      reads this
    {
      if hunt in logs then logs[hunt] else []
    }

    constructor ()
      ensures Valid()
      ensures !root && dirs == {} && data == map[] && temp == map[] && logs == map[] && aliases == {}
    {
      root, dirs, data, temp, logs, aliases := false, {}, map[], map[], map[], {};
    }

    /** log_operation: make sure hunts/<hunt> exists, append one line to its log and
        re-create the logged_hunt-<hunt> link. */
    method LogOperation(hunt: string, operation: string)
      requires Valid()
      modifies this`root, this`dirs, this`logs, this`aliases
      ensures Valid()
      ensures root && dirs == old(dirs) + {hunt}
      ensures logs == old(logs)[hunt := old(LogOf(hunt)) + [operation]]
      ensures aliases == old(aliases) + {hunt}
    {
      root := true;
      dirs := dirs + {hunt};
      logs := logs[hunt := LogOf(hunt) + [operation]];
      aliases := aliases + {hunt};
    }

    /** add_treasure with the record the user typed: create the directories, open the record
        file with O_CREAT | O_APPEND (`openOk` is whether the open succeeded) and write one
        record; `written` is what write returned, -1 or a byte count up to the record size.
        Only -1 counts as a failure, so a short write is reported and logged as an addition.
        The bytes land after any stray bytes: one more record is complete when stray and
        written bytes reach the record size, and it is `t` only when the file was aligned and
        the whole record was written; otherwise the model leaves its content unspecified. */
    method AddTreasure(hunt: string, t: Treasure, openOk: bool, written: int)
      returns (status: AddStatus, out: string)
      requires Valid()
      requires written == -1 || 0 <= written <= RecordSize
      modifies this
      ensures Valid()
      ensures status == (if !openOk then OpenFailed else if written == -1 then WriteFailed else Added)
      ensures out == (if !openOk then "" else AddPrompts + (if written != -1 then AddedLine else ""))
      ensures root && dirs == old(dirs) + {hunt} && temp == old(temp)
      ensures !openOk ==> data == old(data)
      ensures openOk && written == -1 ==> data == old(data)[hunt := old(FileOf(hunt))]
      ensures status == Added ==> hunt in data && data == old(data)[hunt := data[hunt]]
      ensures status == Added ==> data[hunt].Size() == old(FileOf(hunt)).Size() + written
      ensures status == Added ==>
        |data[hunt].records| ==
          |old(FileOf(hunt)).records| + (if old(FileOf(hunt)).stray + written >= RecordSize then 1 else 0) &&
        data[hunt].records[..|old(FileOf(hunt)).records|] == old(FileOf(hunt)).records
      ensures status == Added && old(FileOf(hunt)).stray == 0 && written == RecordSize ==>
        data[hunt] == RecordFile(old(FileOf(hunt)).records + [t], 0)
      ensures status == Added ==>
        logs == old(logs)[hunt := old(LogOf(hunt)) + ["ADD treasure_id=" + t.id + " user=" + t.user]] &&
        aliases == old(aliases) + {hunt}
      ensures status != Added ==> logs == old(logs) && aliases == old(aliases)
    {
      root := true;
      dirs := dirs + {hunt};
      if !openOk {
        return OpenFailed, "";
      }
      var f := FileOf(hunt);
      assert f == old(FileOf(hunt));
      data := data[hunt := f];
      if written == -1 {
        return WriteFailed, AddPrompts;
      }
      var chunk := t;
      if f.stray != 0 {
        chunk :| true;
      }
      var g := Append(f, written, chunk);
      assert g.records[..|f.records|] == f.records;
      data := data[hunt := g];
      status, out := Added, AddPrompts + AddedLine;
      LogOperation(hunt, "ADD treasure_id=" + t.id + " user=" + t.user);
    }

    /** list_treasures: stat and open the record file, print its header, then one row per
        read that returns a whole record, stopping at the first short read. */
    method ListTreasures(hunt: string, mtime: string) returns (out: Option<string>)
      requires Valid()
      modifies this`root, this`dirs, this`logs, this`aliases
      ensures Valid()
      ensures hunt !in data ==>
        out == None && root == old(root) && dirs == old(dirs) && logs == old(logs) && aliases == old(aliases)
      ensures hunt in data ==>
        out == Some(CliListing(hunt, data[hunt], mtime)) &&
        logs == old(logs)[hunt := old(LogOf(hunt)) + ["LIST"]] &&
        root == old(root) && dirs == old(dirs) && aliases == old(aliases) + {hunt}
    {
      if hunt !in data {
        return None;
      }
      var rows := ScanRows(data[hunt]);
      out := Some(CliListingHeader(hunt, data[hunt], mtime) + rows);
      LogOperation(hunt, "LIST");
    }

    /** view_treasure: scan until the first record whose id is `treasure` and print it, or
        report that there is none. */
    method ViewTreasure(hunt: string, treasure: string) returns (out: Option<string>)
      requires Valid()
      modifies this`root, this`dirs, this`logs, this`aliases
      ensures Valid()
      ensures hunt !in data ==>
        out == None && root == old(root) && dirs == old(dirs) && logs == old(logs) && aliases == old(aliases)
      ensures hunt in data ==>
        out == Some(CliView(data[hunt].records, treasure)) &&
        logs == old(logs)[hunt := old(LogOf(hunt)) + ["VIEW treasure_id=" + treasure]] &&
        root == old(root) && dirs == old(dirs) && aliases == old(aliases) + {hunt}
    {
      if hunt !in data {
        return None;
      }
      var found := ScanFirst(data[hunt], treasure);
      out := Some(if found.Some? then CliDetails(found.value) else CliNotFound(treasure));
      LogOperation(hunt, "VIEW treasure_id=" + treasure);
    }

    /** remove(file_path) on the record file: from here until the rename the hunt has no
        record file at all. */
    method UnlinkRecordFile(hunt: string)
      requires Valid()
      modifies this`data
      ensures Valid()
      ensures data == old(data) - {hunt}
    {
      data := data - {hunt};
    }

    /** rename(temp_path, file_path): the temporary file becomes the record file. */
    method RenameTempOverRecordFile(hunt: string)
      requires Valid() && hunt in temp
      modifies this`data, this`temp
      ensures Valid()
      ensures data == old(data)[hunt := old(temp)[hunt]]
      ensures temp == old(temp) - {hunt}
    {
      data := data[hunt := temp[hunt]];
      temp := temp - {hunt};
    }

    /** The copy loop of remove_treasure: create (or truncate) treasures.tmp, then write to
        it every whole record read from the record file whose id is not `treasure`. */
    method CopySurvivors(hunt: string, treasure: string) returns (found: bool)
      requires Valid() && hunt in data
      modifies this`temp
      ensures Valid()
      ensures temp == old(temp)[hunt := RecordFile(Survivors(data[hunt].records, treasure), 0)]
      ensures found <==> FirstMatch(data[hunt].records, treasure).Some?
    {
      var f := data[hunt];
      temp := temp[hunt := EmptyFile];
      found := false;
      var k := 0;
      while true
        invariant k <= |f.records| && Valid()
        invariant temp == old(temp)[hunt := RecordFile(Survivors(f.records[..k], treasure), 0)]
        invariant found <==> exists j :: 0 <= j < k && f.records[j].id == treasure
        decreases |f.records| - k
      {
        var r := ReadAt(f, k);
        if r.None? {
          break;
        }
        SurvivorsPrefix(f.records, treasure, k);
        if r.value.id != treasure {
          assert temp[hunt].records == Survivors(f.records[..k], treasure);
          temp := temp[hunt := RecordFile(temp[hunt].records + [r.value], 0)];
          assert temp == old(temp)[hunt := RecordFile(Survivors(f.records[..k + 1], treasure), 0)];
        } else {
          assert Survivors(f.records[..k], treasure) + [] == Survivors(f.records[..k], treasure);
          found := true;
        }
        k := k + 1;
      }
      assert f.records[..k] == f.records;
    }

    /** The end of a remove that matched: delete the record file, rename the copy onto it,
        report and log. */
    method CommitRemoval(hunt: string, treasure: string) returns (out: string)
      requires Valid() && hunt in temp
      modifies this
      ensures Valid()
      ensures out == "Treasure " + treasure + " removed successfully.\n"
      ensures data == old(data)[hunt := old(temp)[hunt]] && temp == old(temp) - {hunt}
      ensures root && dirs == old(dirs)
      ensures logs == old(logs)[hunt := old(LogOf(hunt)) + ["REMOVE_TREASURE treasure_id=" + treasure]]
      ensures aliases == old(aliases) + {hunt}
    {
      UnlinkRecordFile(hunt);
      RenameTempOverRecordFile(hunt);
      out := "Treasure " + treasure + " removed successfully.\n";
      LogOperation(hunt, "REMOVE_TREASURE treasure_id=" + treasure);
    }

    /** remove_treasure: copy every record whose id is not `treasure` into treasures.tmp;
        without a match delete the copy and keep the original, otherwise delete the original
        and rename the copy onto it. The copy holds whole records only, so the rewrite also
        drops any stray trailing bytes. */
    method RemoveTreasure(hunt: string, treasure: string) returns (out: Option<string>)
      requires Valid()
      modifies this
      ensures Valid()
      ensures hunt !in old(data) ==>
        out == None && data == old(data) && temp == old(temp) && root == old(root) &&
        dirs == old(dirs) && logs == old(logs) && aliases == old(aliases)
      ensures hunt in old(data) && FirstMatch(old(data)[hunt].records, treasure).None? ==>
        out == Some(CliNotFound(treasure)) && data == old(data) && temp == old(temp) - {hunt} &&
        root == old(root) && dirs == old(dirs) && logs == old(logs) && aliases == old(aliases)
      ensures hunt in old(data) && FirstMatch(old(data)[hunt].records, treasure).Some? ==>
        out == Some("Treasure " + treasure + " removed successfully.\n") &&
        data == old(data)[hunt := RecordFile(Survivors(old(data)[hunt].records, treasure), 0)] &&
        temp == old(temp) - {hunt} && root && dirs == old(dirs) &&
        logs == old(logs)[hunt := old(LogOf(hunt)) + ["REMOVE_TREASURE treasure_id=" + treasure]] &&
        aliases == old(aliases) + {hunt}
    {
      if hunt !in data {
        return None;
      }
      var found := CopySurvivors(hunt, treasure);
      if !found {
        temp := temp - {hunt};
        return Some(CliNotFound(treasure));
      }
      var message := CommitRemoval(hunt, treasure);
      out := Some(message);
    }

    /** remove_hunt: remove the record file and the log whether or not they exist, then the
        directory; only when rmdir succeeds (the directory exists and nothing else, such as
        a leftover treasures.tmp, is in it) is the logged_hunt-<hunt> link removed too. */
    method RemoveHunt(hunt: string) returns (removed: bool, out: string)
      requires Valid()
      modifies this`data, this`logs, this`dirs, this`aliases
      ensures Valid()
      ensures out == (if removed then HuntRemoved(hunt) else "")
      ensures data == old(data) - {hunt} && logs == old(logs) - {hunt}
      ensures removed == (hunt in old(dirs) && hunt !in temp)
      ensures dirs == (if removed then old(dirs) - {hunt} else old(dirs))
      ensures aliases == (if removed then old(aliases) - {hunt} else old(aliases))
    {
      data := data - {hunt};
      logs := logs - {hunt};
      if hunt !in dirs || hunt in temp {
        return false, "";
      }
      dirs := dirs - {hunt};
      aliases := aliases - {hunt};
      removed, out := true, HuntRemoved(hunt);
    }

    /** main: dispatch on argv and return the exit status and what is printed on stdout.
        `input` is the record typed at the --add prompts; `openOk`, `written` and `mtime` are
        what the system returns. */
    method Run(argv: seq<string>, input: Treasure, openOk: bool, written: int, mtime: string)
      returns (code: int, out: string)
      requires Valid()
      requires written == -1 || 0 <= written <= RecordSize
      modifies this
      ensures Valid()
      ensures code == ExitCode(argv)
      ensures ParseArgs(argv).None? ==> out == Usage
      ensures ParseArgs(argv).Some? ==> out == match ParseArgs(argv).value
        case Add(h) => if openOk then AddPrompts + (if written != -1 then AddedLine else "") else ""
        case List(h) => if h in old(data) then CliListing(h, old(data)[h], mtime) else ""
        case View(h, t) => if h in old(data) then CliView(old(data)[h].records, t) else ""
        case RemoveTreasure(h, t) =>
          if h !in old(data) then ""
          else if FirstMatch(old(data)[h].records, t).None? then CliNotFound(t)
          else "Treasure " + t + " removed successfully.\n"
        case RemoveHunt(h) => if h in old(dirs) && h !in old(temp) then HuntRemoved(h) else ""
      ensures ParseArgs(argv).None? ==>
        root == old(root) && dirs == old(dirs) && data == old(data) && temp == old(temp) &&
        logs == old(logs) && aliases == old(aliases)
      ensures ParseArgs(argv).Some? && ParseArgs(argv).value.Add? ==>
        var h := argv[2];
        root && dirs == old(dirs) + {h} && temp == old(temp) &&
        (openOk && written != -1 ==>
          h in data && data == old(data)[h := data[h]] &&
          data[h].Size() == old(FileOf(h)).Size() + written &&
          |data[h].records| >= |old(FileOf(h)).records| &&
          data[h].records[..|old(FileOf(h)).records|] == old(FileOf(h)).records &&
          (old(FileOf(h)).stray == 0 && written == RecordSize ==>
            data[h] == RecordFile(old(FileOf(h)).records + [input], 0)) &&
          logs == old(logs)[h := old(LogOf(h)) + ["ADD treasure_id=" + input.id + " user=" + input.user]] &&
          aliases == old(aliases) + {h}) &&
        (!(openOk && written != -1) ==> logs == old(logs) && aliases == old(aliases)) &&
        (!openOk ==> data == old(data)) &&
        (openOk && written == -1 ==> data == old(data)[h := old(FileOf(h))])
      ensures ParseArgs(argv).Some? && ParseArgs(argv).value.List? ==>
        var h := argv[2];
        data == old(data) && temp == old(temp) && root == old(root) && dirs == old(dirs) &&
        logs == (if h in old(data) then old(logs)[h := old(LogOf(h)) + ["LIST"]] else old(logs)) &&
        aliases == (if h in old(data) then old(aliases) + {h} else old(aliases))
      ensures ParseArgs(argv).Some? && ParseArgs(argv).value.View? ==>
        var h := argv[2];
        data == old(data) && temp == old(temp) && root == old(root) && dirs == old(dirs) &&
        logs == (if h in old(data)
                 then old(logs)[h := old(LogOf(h)) + ["VIEW treasure_id=" + argv[3]]]
                 else old(logs)) &&
        aliases == (if h in old(data) then old(aliases) + {h} else old(aliases))
      ensures ParseArgs(argv).Some? && ParseArgs(argv).value.RemoveTreasure? ==>
        var h, t := argv[2], argv[3];
        root == old(root) && dirs == old(dirs) &&
        temp == (if h in old(data) then old(temp) - {h} else old(temp)) &&
        (h in old(data) && FirstMatch(old(data)[h].records, t).Some? ==>
          data == old(data)[h := RecordFile(Survivors(old(data)[h].records, t), 0)] &&
          logs == old(logs)[h := old(LogOf(h)) + ["REMOVE_TREASURE treasure_id=" + t]] &&
          aliases == old(aliases) + {h}) &&
        (h !in old(data) || FirstMatch(old(data)[h].records, t).None? ==>
          data == old(data) && logs == old(logs) && aliases == old(aliases))
      ensures ParseArgs(argv).Some? && ParseArgs(argv).value.RemoveHunt? ==>
        var h := argv[2];
        data == old(data) - {h} && logs == old(logs) - {h} && temp == old(temp) && root == old(root) &&
        dirs == (if h in old(dirs) && h !in old(temp) then old(dirs) - {h} else old(dirs)) &&
        aliases == (if h in old(dirs) && h !in old(temp) then old(aliases) - {h} else old(aliases))
    {
      var cmd := ParseArgs(argv);
      if cmd.None? {
        return 1, Usage;
      }
      match cmd.value {
        case Add(hunt) =>
          var _, printed := AddTreasure(hunt, input, openOk, written);
          out := printed;
        case List(hunt) =>
          var printed := ListTreasures(hunt, mtime);
          out := if printed.Some? then printed.value else "";
        case View(hunt, treasure) =>
          var printed := ViewTreasure(hunt, treasure);
          out := if printed.Some? then printed.value else "";
        case RemoveTreasure(hunt, treasure) =>
          var printed := RemoveTreasure(hunt, treasure);
          out := if printed.Some? then printed.value else "";
        case RemoveHunt(hunt) =>
          var _, printed := RemoveHunt(hunt);
          out := printed;
      }
      code := 0;
    }
  }
}
