# Treasure hunt manager — a Dafny model

This project models the treasure hunt system of main.c, treasure_monitor.c, treasure_hub.c and
calculate_score.c, and proves properties of that model.

- **Record store.** The treasure manager (`treasure_manager`, main.c) keeps one binary record
  file `hunts/<hunt>/treasures.dat` per hunt. The file holds fixed-size `Treasure` records
  back to back. The manager appends to it, lists it, views one record, deletes every record
  with an id by rewriting the file through `treasures.tmp`, and removes a whole hunt. A
  command-line dispatcher picks the operation and sets the exit status.
- **Monitor.** The monitor daemon (treasure_monitor.c) waits for SIGUSR1. It then reads one
  command from `/tmp/treasure_monitor_cmd`, answers it from the record files, and writes one
  report into the named pipe `/tmp/treasure_monitor_output`, which it opens on first use.
- **Hub.** The hub (treasure_hub.c) is an interactive loop. It starts and stops the monitor
  as a child process and tracks it in `monitor_pid` / `monitor_active`. It forwards queries by
  overwriting the command file and signalling the monitor.
- **Scores.** The score program (calculate_score.c) totals the record values per user into a
  table of at most 100 entries. It sorts the table by descending total with an in-place
  exchange sort and prints it.

The filesystem is abstract. The hunts are a map from hunt id to a `RecordFile`, which is the
sequence of whole records plus the number (0 to 283) of stray trailing bytes. The following
are parameters of the methods, not computed:
- the outcome of an `open` or `write`;
- what `fork` and `waitpid` return;
- the entries `readdir` lists;
- the `ctime` text of a modification time.

Modules, one file each:
- `Base`: `Option`.
- `CText`: the parts of the C library the programs depend on. These are the "C" locale's
  `isspace`, the `scanf`/`sscanf` white-space directive and `%s`, `printf`'s `%d`, the NUL
  that ends a C string, and `snprintf` truncation.
- `Records`: the record of treasure.h, the record file, and the scans shared by the programs.
- `Store`: main.c.
- `Monitor`: treasure_monitor.c.
- `Hub`: treasure_hub.c.
- `Score`: calculate_score.c.

The model follows the code as written; in particular:
- A trailing partial record ends every scan silently. It is not reported as an error.
- remove_treasure deletes `treasures.dat` and then renames the temporary file onto it. The
  replacement is therefore not atomic: between the two steps the hunt has no record file.
- The manager exits with 0 for every recognised command, even when the operation fails.
- add_treasure treats only a `write` result of -1 as a failure. A short write is reported and
  logged as a successful addition, and leaves stray bytes behind.
- `stop_monitor` changes no state. It only sends SIGTERM. The state is cleared later, by the
  SIGCHLD handler.
- The SIGCHLD handler prints its status line itself. In the model that line is the
  handler's `notice` result.

## Model

| member | source | states |
|---|---|---|
| CText.LeadingSpaces | treasure_monitor.c:151 | The white-space run at the start of the input ends at its first non-space character or at the end. |
| CText.SkipSpaces | treasure_monitor.c:151 | The white-space directive consumes a prefix made only of white space and stops at the first non-space character or at the end. |
| CText.Word | treasure_monitor.c:151 | `%s` stores a prefix of the input that has no white space and is followed by white space or the end. |
| CText.ScanWord | treasure_monitor.c:151 | A `%s` conversion fails exactly when only white space is left. Otherwise it stores a non-empty word without white space, made of the input's characters. That word comes right after the leading white space, and the unread rest is empty or starts with white space. |
| CText.ScanAfter | treasure_monitor.c:151 | A "keyword %s" format fails exactly when the input does not start with the keyword, or only white space follows it. When it succeeds, the word comes right after the keyword and the white space behind it, and the unread rest is empty or starts with white space. |
| CText.ScanPair | treasure_monitor.c:153 | Two `%s` conversions fail exactly when the input is all white space, or only white space follows its first word. When they succeed, both words are non-empty, contain no white space and are made of the input's characters. |
| CText.ScanPairAfter | treasure_monitor.c:153 | A "keyword %s %s" format fails exactly when the input does not start with the keyword, only white space follows the keyword, or only white space follows the first word after it. Both words it yields are non-empty and contain no white space. |
| CText.WordOfPrefix | treasure_monitor.c:151 | `%s` reads back exactly a word that is followed by white space or the end. |
| CText.ScanWordOf | treasure_monitor.c:151 | A word followed by white space or the end scans as that word, and the rest is left unread. |
| CText.SkipBlanks | treasure_monitor.c:151 | The white-space directive skips a whole run of white space, of any length, and stops at the first other character. |
| CText.ScanWordAfterBlanks | treasure_monitor.c:151 | A run of white space of any length, then a word, then a rest that is empty or starts with white space, scans as exactly that word and that rest. |
| CText.ScanAfterOf | treasure_monitor.c:151 | The keyword, a run of white space of any length and a word scan as that word, whatever white-space-led text follows. |
| CText.ScanPairShape | treasure_monitor.c:153 | When two conversions read a and b, the input is a run of white space, then a, then a non-empty run of white space, then b, then a rest that is empty or starts with white space. Together with ScanPairOf, this says exactly which inputs yield which pair. |
| CText.ScanPairAfterOf | treasure_monitor.c:153 | The keyword followed by that shape scans as its two words. |
| CText.ScanPairOf | treasure_monitor.c:153 | A run of white space, a word a, a non-empty run of white space and a word b, followed by any white-space-led text, reads back as the pair (a, b). The runs can have any length. |
| CText.ScanPairOfOne | treasure_monitor.c:153 | One word between runs of white space is not a pair: the second conversion fails. |
| CText.CString | treasure_monitor.c:182 | C string functions see the prefix before the first NUL, which contains no NUL. |
| CText.CStringOfPlain | treasure_monitor.c:182 | A buffer without NUL is its own C string. |
| CText.Truncate | treasure_hub.c:123 | snprintf keeps a prefix of the text: the whole text when it fits, otherwise exactly as many characters as the buffer holds. |
| CText.Digits | calculate_score.c:65 | The digits of %d are decimal digits with no leading zero. |
| CText.Decimal | calculate_score.c:65 | %d prints a non-empty token without white space or NUL. It is digits with a leading '-' exactly for negative numbers. |
| CText.DigitsRoundTrip | calculate_score.c:65 | Reading back the digits %d prints for n gives n. |
| CText.DigitsInjective | calculate_score.c:65 | Different natural numbers have different digits. |
| CText.DecimalInjective | calculate_score.c:65 | Different numbers print differently. |
| Records.ReadAt | main.c:138 | The k-th read of sizeof(Treasure) bytes returns a whole record exactly when k is below the number of whole records. A short read (end of file, or only stray bytes left) returns none. |
| Records.Count | treasure_monitor.c:64 | st_size / sizeof(Treasure) is exactly the number of whole records, whatever the stray bytes. |
| Records.Append | main.c:71-93 | An O_APPEND write of w bytes grows the file by exactly w bytes. It closes one more record exactly when the stray and written bytes together reach 284, and earlier records are kept. A whole record written to an aligned file adds exactly that record and leaves no stray bytes. |
| Records.CountOfSize | treasure_monitor.c:64 | Integer division by 284 discards up to 283 stray bytes. |
| Records.FirstMatch | main.c:165-176 | The index of the first record whose id equals the requested one: no earlier record has it, and none is returned exactly when no record has it. |
| Records.FirstMatchAppended | main.c:71-93 | After an append, a view of the new record's id finds something. It finds the new record when the id was new; otherwise the earlier record keeps shadowing it. |
| Records.SurvivorsAppend | main.c:214-220 | The filter copy distributes over concatenation of record sequences. |
| Records.SurvivorsMembers | main.c:214-220 | The rewritten file holds exactly the records whose id differs. No matching record survives, not only the first one. |
| Records.SurvivorsCount | main.c:214-220 | The survivors plus the dropped records add up to the record count. |
| Records.SurvivorsSubMultiset | main.c:214-220 | The survivors are taken from the file: no record is written more often than it occurs. |
| Records.SurvivorsNoMatch | main.c:225-229 | Without a match the filter copy equals the original records, and nothing is dropped. |
| Records.SurvivorsIdempotent | main.c:214-220 | Removing the same id twice removes nothing more the second time. |
| Records.SurvivorsOfAppended | main.c:214-220 | Removing an id right after appending a record with it also removes the appended record. |
| Records.RowsPrefix | main.c:138-143 | A listing of one more record ends with that record's row. |
| Records.SurvivorsPrefix | main.c:214-220 | Reading one more record extends the copy by that record when its id differs, and by nothing otherwise. |
| Records.Survivors | main.c:214-220 | The records the copy loop writes to treasures.tmp, in file order: never more records than the file has. |
| Records.Row | main.c:139-141 | (definition) The listing row of one record: id, user, latitude, longitude and value, separated by tabs and ended by a newline. |
| Records.Rows | main.c:138-143 | (definition) The rows of the records, concatenated in file order. |
| Records.ScanRows | main.c:138-143 | The listing loop prints one row per whole record, in file order, and stops at the first short read. |
| Records.ScanFirst | main.c:165-176 | The view loop stops at the first record with the id. It finds nothing exactly when no whole record has that id. |
| Records.RowIsOneLine | main.c:139 | A row is one line when the record's text fields hold no newline. |
| Records.RowsLines | main.c:138-143 | The rows of a listing have exactly one line per whole record. |
| Store.ParseArgs | main.c:273-292 | Fewer than three arguments is a usage error. A command is accepted exactly for --add, --list or --remove_hunt with three arguments, and for --view or --remove_treasure with four. Each accepted command is the one its option names (--add gives Add, --list gives List, and so on). The hunt is argv[2] and the treasure argv[3]. |
| Store.ExitCode | main.c:272-295 | The exit status is 0 or 1. It is 1 exactly when argc is below 3 or above 4, when argc is 3 and the option is not --add, --list or --remove_hunt, or when argc is 4 and the option is not --view or --remove_treasure. |
| Store.CliView | main.c:165-180 | When no record has the id, --view prints "Treasure with ID <id> not found.". When some record has it, the details of the first such record are printed. |
| Store.CliListing | main.c:121-143 | (definition) What --list prints: the header lines followed by one row per whole record. |
| Store.CliListingHeader | main.c:121-136 | (definition) The lines --list prints before the rows: hunt, file size in bytes, the ctime text, "Treasures:", the column header and the rule. |
| Store.CliDetails | main.c:168-173 | (definition) The details --view prints for a record: id, user, coordinates, clue and value. |
| Store.CliNotFound | main.c:179 | (definition) The not-found line of --view and --remove_treasure. |
| Store.HuntRemoved | main.c:267 | (definition) The line remove_hunt prints once rmdir succeeds. |
| Store.HuntStore.constructor | main.c:271 | The state main starts from in a fresh working directory: the store starts with no hunts/ directory, no hunt directories, no record, temporary or log files and no links; add_treasure and log_operation create them on demand. |
| Store.HuntStore.LogOperation | main.c:27-60 | Logging creates hunts/ and the hunt directory, appends one entry to the hunt's log, and (re)creates the logged_hunt-<hunt> link. |
| Store.HuntStore.AddTreasure | main.c:61-105 | The directories are created in every case. A failed open changes no file and prints nothing on stdout. A write returning -1 leaves the file created but unchanged, after the six prompts. Any other return, a short write included, counts as success: it prints the prompts and "Treasure added successfully!" and logs "ADD treasure_id=… user=…". The file then grows by exactly the bytes written, and earlier records are kept. One record is added exactly when the stray and written bytes reach a whole record. A whole write to an aligned file adds exactly the record typed. |
| Store.HuntStore.ListTreasures | main.c:106-151 | Without a record file nothing is printed or logged. Otherwise the hunt, the file size and mtime, the header and one row per whole record are printed, and "LIST" is logged. |
| Store.HuntStore.ViewTreasure | main.c:152-188 | Without a record file nothing happens. Otherwise the first matching record's details or the not-found line are printed, and "VIEW treasure_id=…" is logged whether or not the id was found. |
| Store.HuntStore.UnlinkRecordFile | main.c:232 | After remove(file_path) the hunt has no record file, and no other hunt is touched. |
| Store.HuntStore.RenameTempOverRecordFile | main.c:233 | rename moves the temporary file's contents into the record file, and the temporary file is gone. |
| Store.HuntStore.CopySurvivors | main.c:203-220 | treasures.tmp is truncated and then holds exactly the surviving records, whole and in order. found is reported exactly when some record had the id. |
| Store.HuntStore.CommitRemoval | main.c:232-240 | The record file is deleted and then replaced by the copy, which is gone afterwards. The success line is printed and "REMOVE_TREASURE treasure_id=…" is logged. |
| Store.HuntStore.RemoveTreasure | main.c:189-241 | Without a record file nothing changes. Without a match, the record file and the log are unchanged, the temporary file is deleted and the not-found line is printed. With a match, the record file becomes the survivors with no stray bytes, the temporary file is gone, the success line is printed and "REMOVE_TREASURE treasure_id=…" is logged. |
| Store.HuntStore.RemoveHunt | main.c:242-270 | The record file and the log are removed whether or not they exist. The directory and the logged_hunt-<hunt> link are removed only when rmdir succeeds, which it does exactly when the directory exists and no temporary file is left in it. Only then is "Hunt <h> removed successfully." printed. |
| Store.HuntStore.Run | main.c:272-295 | main returns ExitCode(argv). A usage error prints the usage text and changes nothing. For each command the whole new state is stated. --add creates hunts/ and the hunt's directory and leaves the temporary files alone. When the open fails it changes no record file. When the write returns -1 it leaves the hunt's record file as before, which is an empty new file for a new hunt, and logs nothing. Otherwise the file grows by the bytes written, earlier records are kept, a whole aligned write adds the typed record, and the ADD entry is logged and the logged_hunt-<h> link created. --list and --view change no record, temporary or directory file; for an existing record file they add the log entry and create the link. --remove_treasure without a match deletes the temporary file and changes nothing else; with a match the hunt's file becomes the survivors, the temporary file is gone, and the log entry and link are written. --remove_hunt removes the hunt's record file and log, and, when rmdir succeeds, the directory and the link. Each command's stdout is the text of the operation it runs. |
| Monitor.Parse | treasure_monitor.c:144-158 | Exactly "list_hunts" lists the hunts. The command is a listing exactly when it is not "list_hunts", starts with "list_treasures" and has more than white space after the keyword. It is unknown exactly when no branch matches: it is not "list_hunts", no word follows "list_treasures", and fewer than two words follow "view_treasure". The ids of a listing or a view are non-empty and contain no white space. |
| Monitor.ParseListTreasures | treasure_monitor.c:151 | "list_treasures", a run of white space of any length and h, followed by any white-space-led text, is a listing of h. |
| Monitor.ViewKeyword | treasure_monitor.c:149-153 | A command starting with "view_treasure" is neither "list_hunts" nor a listing, and reaches the two-word scan of what follows the keyword. |
| Monitor.ParseViewTreasure | treasure_monitor.c:153 | "view_treasure", then h and t each led by a run of white space (the second one not empty), followed by any white-space-led text, is a view of t in h. |
| Monitor.ParseViewSingleSpaced | treasure_monitor.c:153 | The single-spaced "view_treasure <h> <t>" is a view of t in h. |
| Monitor.ParseGlued | treasure_monitor.c:151 | Because the white-space directive may match nothing, "list_treasures<h>" is also a listing of h. |
| Monitor.ParseViewOneWord | treasure_monitor.c:153-156 | A view with only one id, between runs of white space of any length, makes sscanf return 1, so the command is unknown. |
| Monitor.ReadCommand | treasure_monitor.c:179-182 | A read of 0 bytes yields no command. Otherwise the command is a prefix of the file of at most 255 characters, with no NUL. It ends at the end of the file, after 255 characters, or at the file's first NUL. |
| Monitor.ReadCommandOfShort | treasure_monitor.c:179-182 | A command of at most 255 characters without NUL is read unchanged. |
| Monitor.ViewReport | treasure_monitor.c:104-138 | Without a record file the report is the open error. When no record has the id it is "Treasure with ID <t> not found in hunt <h>". Otherwise it is the details of the first record with the id. |
| Monitor.HuntLine | treasure_monitor.c:63-67 | (definition) "<name>: <count> treasures", with the count st_size / sizeof(Treasure). |
| Monitor.HuntLines | treasure_monitor.c:54-69 | (definition) The count lines of the listed entries that are not "." or ".." and have a record file, in readdir order. |
| Monitor.HuntListing | treasure_monitor.c:41-73 | (definition) The open error when hunts/ cannot be opened, otherwise the title followed by the count lines. |
| Monitor.TreasureListing | treasure_monitor.c:75-102 | (definition) The open error without a record file, otherwise the title, column header and rule followed by one row per whole record. |
| Monitor.Details | treasure_monitor.c:121-132 | (definition) The details report: hunt, treasure id, user, coordinates, clue and value. |
| Monitor.NotFound | treasure_monitor.c:137 | (definition) "Treasure with ID <t> not found in hunt <h>". |
| Monitor.Response | treasure_monitor.c:144-158 | (definition) The one message process_command sends: the listing, the treasure listing or the view for the parsed command, and the unknown-command error otherwise. |
| Monitor.ViewOfAbsentTreasure | treasure_monitor.c:136-138 | A view command for an absent treasure gets the not-found report, not an error. |
| Monitor.HuntLinesAppend | treasure_monitor.c:54-69 | The listing of concatenated directory listings is the concatenation of their listings. |
| Monitor.HuntLinesMiddle | treasure_monitor.c:54-69 | The lines of an entry count the same wherever in the listing the entry comes. |
| Monitor.HuntLinesPermutation | treasure_monitor.c:54-69 | Any readdir order gives the same hunt lines, each as often. |
| Monitor.HuntLinesMembers | treasure_monitor.c:54-69 | Every entry other than "." and ".." that has a record file gets its count line, and every line belongs to such an entry. There are never more lines than entries. |
| Monitor.BuildHuntLines | treasure_monitor.c:54-69 | The strcat loop builds exactly the count lines of the listed entries, in readdir order. |
| Monitor.Monitor.constructor | treasure_monitor.c:15-16 | The monitor starts with no command pending and the output pipe not yet opened. |
| Monitor.Monitor.OnSigusr1 | treasure_monitor.c:18-20 | SIGUSR1 sets command_received. |
| Monitor.Monitor.SendOutput | treasure_monitor.c:30-39 | Each call tries to open the pipe only while it is not yet open. The message is written exactly when the pipe is, or becomes, open; otherwise it is dropped and the next call tries again. |
| Monitor.Monitor.ListHunts | treasure_monitor.c:41-73 | One send: the open error when hunts/ cannot be opened, otherwise the title and the count lines. |
| Monitor.Monitor.ListTreasures | treasure_monitor.c:75-102 | One send: the open error, or the three header lines followed by one row per whole record. |
| Monitor.Monitor.ViewTreasure | treasure_monitor.c:104-142 | One send: the open error, the first matching record's details, or the not-found report. |
| Monitor.Monitor.ProcessCommand | treasure_monitor.c:144-158 | Every command, including an unknown one and the open-failure branches, leads to exactly one send_output carrying the command's response. |
| Monitor.Monitor.Wake | treasure_monitor.c:169-187 | Nothing happens without a pending SIGUSR1. Otherwise the flag is cleared first. An unopenable command file gives one error send, an empty read gives no send, and anything else gives one send of the response to the command read. |
| Monitor.Monitor.Serve | treasure_monitor.c:166-188 | Over a run of wake-ups, send_output is called once for each wake-up that brought SIGUSR1 and an unopenable file or a non-empty read. The pipe's contents only grow. |
| Hub.ListTreasuresRoundTrip | treasure_hub.c:123 | The monitor reads the hub's "list_treasures <h>" command back as a listing of the same h. |
| Hub.ViewTreasureRoundTrip | treasure_hub.c:136 | The monitor reads the hub's "view_treasure <h> <t>" command back as a view of the same h and t. |
| Hub.ListTreasuresCommand | treasure_hub.c:122-123 | The command is a prefix of "list_treasures <h>": the whole text when it fits in 255 characters, otherwise exactly its first 255 characters. |
| Hub.ViewTreasureCommand | treasure_hub.c:135-136 | The command is a prefix of "view_treasure <h> <t>": the whole text when it fits in 255 characters, otherwise exactly its first 255 characters. |
| Hub.AlreadyRunning | treasure_hub.c:72 | (definition) The line start_monitor prints while a monitor is recorded. |
| Hub.Started | treasure_hub.c:89 | (definition) The line start_monitor prints after a successful fork. |
| Hub.Stopping | treasure_hub.c:99 | (definition) The line stop_monitor prints before sending SIGTERM. |
| Hub.ParseLine | treasure_hub.c:229-251 | Exit, start_monitor, stop_monitor and list_hunts are chosen exactly for their exact words. A line is a listing exactly when it starts with "list_treasures" and has more than white space after the keyword. A view starts with "view_treasure", a single score with "calculate_score", and calculate_all_scores is only that exact word. The ids of list_treasures and view_treasure lines are non-empty, contain no white space and are made of the line's characters. |
| Hub.ParseLineListTreasures | treasure_hub.c:241-242 | "list_treasures", a run of white space of any length and h, followed by any white-space-led text, makes the hub list h. |
| Hub.ParseLineViewTreasure | treasure_hub.c:243-244 | "view_treasure", then h and t each led by a run of white space (the second one not empty), followed by any white-space-led text, makes the hub view t in h. |
| Hub.ScoreOrUnrecognized | treasure_hub.c:245-251 | (definition) The last branches of main's loop: "calculate_score <h>", then exactly "calculate_all_scores", otherwise an unrecognised line. |
| Hub.HubAndMonitorAgree | treasure_hub.c:241-244 | Whatever ids the hub reads from a line, the monitor reads the same ids from the command the hub builds, as long as that command fits the 256-byte buffer. |
| Hub.Hub.constructor | treasure_hub.c:18-19 | The hub starts with no monitor recorded, no command file and no signals sent. |
| Hub.Hub.StartMonitor | treasure_hub.c:70-91 | While a monitor is recorded nothing changes and "Monitor is already running (PID: <pid>)" is printed. A failed fork changes nothing and prints nothing on stdout. A successful fork records the child's pid, marks it active, and prints "Monitor started with PID: <pid>". |
| Hub.Hub.StopMonitor | treasure_hub.c:93-103 | monitor_active and monitor_pid never change. SIGTERM goes to the recorded monitor only while one is active, after "Stopping monitor (PID: <pid>)..." is printed. Otherwise "No monitor is currently running" is printed. |
| Hub.Hub.OnChildExit | treasure_hub.c:21-29 | The monitor is forgotten, and its status reported, exactly when waitpid returns monitor_pid. Otherwise nothing changes. |
| Hub.Hub.SendCommand | treasure_hub.c:39-51 | The command file is truncated and then holds exactly the latest command, which loses any unread earlier one, and SIGUSR1 goes to monitor_pid. When the open fails nothing is sent. |
| Hub.Hub.Query | treasure_hub.c:105-110 | A query sends nothing and prints "No monitor is currently running" while no monitor is active. |
| Hub.Hub.ListHunts | treasure_hub.c:105-114 | "list_hunts" is sent only to an active monitor. Otherwise the no-monitor line is printed. |
| Hub.Hub.ListTreasures | treasure_hub.c:116-127 | The truncated "list_treasures <h>" is sent only to an active monitor. Otherwise the no-monitor line is printed. |
| Hub.Hub.ViewTreasure | treasure_hub.c:129-140 | The truncated "view_treasure <h> <t>" is sent only to an active monitor. Otherwise the no-monitor line is printed. |
| Hub.Hub.Step | treasure_hub.c:221-252 | The loop ends exactly on "exit" while no monitor is active; "exit" with an active monitor prints the still-running error. Only start_monitor can change the monitor state, and a successful fork records the child. stop_monitor while active sends SIGTERM to the recorded pid. Each query sent to an active monitor whose command file opens leaves that query's command in the file and sends SIGUSR1 to the recorded pid. No other line sends a signal or writes the command file. The printed line of each command is the one its function prints, and an unrecognised line gets "Unknown command. Type 'help' for available commands.". |
| Hub.Hub.Shutdown | treasure_hub.c:254-260 | A monitor still recorded after the loop is sent SIGTERM, after "Stopping monitor before exit..."; "Goodbye!" is printed last in every case. |
| Score.Table | calculate_score.c:32-47 | The table has at most 100 entries. No user appears twice. Each entry names the user of some record and holds the sum of that user's values. |
| Score.TableIsTableOf | calculate_score.c:32-47 | The table is exactly the first min(100, number of users) users in order of first occurrence, each with the total of all their records. |
| Score.Users | calculate_score.c:34-46 | The users in order of their first record, each once: never more users than records. |
| Score.Total | calculate_score.c:36-46 | (definition) The sum of the values of one user's records. |
| Score.UsersStep | calculate_score.c:34-46 | A record of a new user appends that user. A record of a known user adds its value to that user's total only. |
| Score.UsersDistinct | calculate_score.c:34-45 | No user is listed twice. |
| Score.UsersMembers | calculate_score.c:42-46 | A user is listed exactly when some record is theirs. |
| Score.UsersPrefix | calculate_score.c:42-45 | Reading more records only appends users, so a user's position is fixed at their first record. |
| Score.UsersOrder | calculate_score.c:42-45 | A user whose first record comes after a record of another user is listed after that user. |
| Score.TotalOfAbsent | calculate_score.c:32-47 | A user without records totals 0. |
| Score.TableMissing | calculate_score.c:42-46 | A user with records is missing from the table only when the table is full with 100 other users. |
| Score.SumOverStep | calculate_score.c:36 | A record adds its value to the sum of totals of distinct users exactly when its user is among them. |
| Score.SumOverUsers | calculate_score.c:32-47 | Over all users, the totals add up to the sum of all values. |
| Score.SumTotalsOf | calculate_score.c:32-47 | A table whose totals are those of a user list adds up to that list's totals. |
| Score.TableConservesValue | calculate_score.c:32-47 | With at most 100 users no record is ignored: the table's totals add up to all values in the file. |
| Score.TallyKnown | calculate_score.c:34-40 | Adding a record's value to its user's entry keeps the table correct for one more record. |
| Score.TallyNew | calculate_score.c:42-46 | A new user gets an entry while there is room. Once 100 users are tracked the record is ignored, and the table stays correct. |
| Score.Aggregate | calculate_score.c:28-47 | After the read loop the first num_users entries of scores[100] are exactly the table. |
| Score.SwapPermutes | calculate_score.c:55-57 | Exchanging two entries permutes the segment they lie in and leaves the rest of the array. |
| Score.BoundPermuted | calculate_score.c:52-60 | A bound on every total still holds after the entries are permuted. |
| Score.PlaceLargest | calculate_score.c:53-59 | The inner loop leaves a largest total of the segment at its first position. It only permutes the segment and leaves the rest of the array unchanged. |
| Score.SortDescending | calculate_score.c:52-60 | After the exchange sort the first n totals are non-increasing. The entries are a permutation of those before, and the rest of the array is untouched. |
| Score.PrintScores | calculate_score.c:63-66 | stdout gets the header for the hunt, then one "<name>: <total> points" line per entry, in order. |
| Score.ScoreHeader | calculate_score.c:63 | (definition) "=== Scores for Hunt <h> ===". |
| Score.ScoreLine | calculate_score.c:65 | (definition) "<name>: <total> points". |
| Score.ScoreReport | calculate_score.c:63-66 | (definition) The header followed by one score line per ranking entry, in order. |
| Score.ScoreMain | calculate_score.c:7-69 | Exit status 1 for a wrong argument count or an unopenable record file, with nothing printed on stdout. Otherwise 0, with the ranking printed: a permutation of the table sorted by descending total. |

## Left out

- Floats: latitude and longitude are represented by the text `%.6f` prints for them. They are copied verbatim and never computed with.
- Processes and signals (`fork`, `execl`, `kill`, `waitpid`, `pause`, `sigaction`, `mkfifo`): fork and waitpid results and signal arrivals are inputs. Sent signals are recorded as a list.
- Concurrency between the hub and the monitor: the hub's `usleep` wait and `read_monitor_output` (treasure_hub.c:53-68) are timing and pipe I/O. The model relates the two programs through the command text alone.
- The hub's calculate_score and calculate_all_scores (treasure_hub.c:142-200) fork the score program and copy its output through a pipe. Hub.Hub.Step treats both as steps that change no hub state and print nothing. The score program itself is Score.ScoreMain.
- readdir order is a parameter (the `listing` of hunts/). Monitor.HuntLinesPermutation shows that the order does not change which lines appear.
- Store.HuntStore.LogOperation: the ctime timestamp of each log entry, and the failure branches for opening the log and creating the link, are not modelled. An entry is the operation text, and the link always ends up present.
- Interactive input: the record typed at the --add prompts is a parameter. The prompts, the success lines of add_treasure and remove_hunt, print_usage, and the hub's own lines are modelled as the `out` results of Store.HuntStore.Run and Hub.Hub.Step. The hub's banner and command list (treasure_hub.c:210-219), its "hub> " prompt (treasure_hub.c:222) and all stderr/perror text are not modelled.
- Hub.Hub.Step: the monitor's answer that read_monitor_output copies to stdout, and the "Calculating scores for hunt" and "Score results:" lines of the score commands (treasure_hub.c:143, 170), are not part of `out`, because the pipe plumbing is not modelled.
- Store.HuntStore.AddTreasure: a record closed behind stray bytes is misaligned. The content then read at that position is left unspecified; only the file size, the record count and the earlier records are stated.
- Store.HuntStore.RemoveTreasure: failure to open treasures.tmp, failed writes into it and a failed rename are taken not to happen.
- Store.HuntStore.ListTreasures: an open failing after a successful stat is not modelled; a record file that exists is taken to be readable.
- C buffer limits: `%s` into the 20- and 50-byte fields and into the hub's 50- and 20-byte id buffers, `strcat` into the monitor's 1024- and 2048-byte output buffers, and path truncation at 256 bytes are not modelled. Strings are unbounded, except for the 255-character command limit, which Hub.ListTreasuresCommand and Monitor.ReadCommand do model.
- Strings are compared by `strcmp` in the source. The model compares whole strings; ids and users are NUL-free strings as `scanf` stores them.
- Score.Aggregate and Score.ScoreMain: the `int` sums of values are unbounded integers, so 32-bit overflow of a total is not modelled.
- The hub reads input with `fgets` into a 256-byte buffer. Longer lines split into several commands; the model takes one line per step.
