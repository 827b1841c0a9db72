# WaveTuner FM, modelled in Dafny

WaveTuner FM is a radio player that runs in the browser. It keeps a dial of
internet radio stations, each with an id, a name, a stream address, the time
it was added and an optional favourite flag. The user can:

- add a station from a small form;
- delete a station or mark it as a favourite;
- switch between a dark and a light theme;
- export the dial as an M3U playlist, or import one;
- record the stream being played into an MP3 file, started by hand, by a
  countdown timer, or by a daily or dated time window.

This project models the core of that program:

- the dial operations of the application shell (`Stations`);
- the station list and its display order (`StationList`);
- the add form, the playlist export and the playlist reader (`Playlist`);
- the recording schedules: building them from the scheduler form and the
  once-per-second decision taken on them (`Scheduler`);
- the recording session and the playback flags of the player (`Recorder`).

Two small modules hold shared pieces. `Optional` holds an `Option` type.
`Text` holds the JavaScript string operations the program relies on:
`trim`, `startsWith`, `indexOf`, `padStart(2, '0')`, decimal `parseInt`,
and the date-and-time stamp put into file names.

The shell's operations are pure functions from the old dial to the new one.
The player's state is different: its refs, its state hooks and its
event-driven changes are two classes, `Recorder.Session` and
`Recorder.Playback`, whose methods update fields in place.

- **The MP3 library** is a parameter, `Recorder.Lame`. It is a pair of
  functions that give the bytes an encode call and the final flush return,
  given the blocks fed so far.
- **The clock** is a parameter too. The local midnight of a day, the day of
  the week, the instant and the date-time fields of a `Text.Clock` are all
  inputs.
- **Fresh ids** are inputs as well.

Where the program's evident intent and its code differ, or where the code
is easy to misread, the model follows the code:

- a stream error schedules a reload two seconds later every time, and
  nothing counts the attempts, so the retries have no cap
  (components/RadioPlayer.tsx:323-330);
- the mute button toggles mute on its own, but moving the volume slider also
  clears it, so the two controls are not independent
  (components/RadioPlayer.tsx:569-570);
- the form's "daily" recurrence comes with a choice of week days, which
  evidently asks for a window that repeats, yet the schedule stores the two
  instants computed for the day it was set, so it does not recur on later
  days (components/RadioPlayer.tsx:391-407, see `Scheduler.DailyDoesNotRecur`);
- the day check of a daily window takes the weekday of the current instant,
  not of the day the window started, so a window that runs past midnight is
  tested against the next day's weekday once midnight has passed
  (components/RadioPlayer.tsx:281-283);
- the record button calls `startRecording` only when no recording runs,
  which shows that a second start is not intended, but the timer mode of the
  scheduler calls it with no such check (components/RadioPlayer.tsx:386 and
  573, see Findings).

## Model

| member | source | states |
|---|---|---|
| Stations.Negate | App.tsx:73 | `!favorite` always gives a stored flag, and it is truthy exactly when the old flag was not |
| Stations.AddStation | App.tsx:51-54 | the new station comes first: not a favourite, stamped with the given time, and the old dial follows unchanged |
| Stations.Prepare | App.tsx:57-63 | each imported entry becomes a station with its own fresh id, the time read for that entry and a `false` flag, in input order |
| Stations.ImportStations | App.tsx:56-65 | the prepared stations come first, in input order, each with its entry's name and address, its own id and time and no favourite mark, and the old dial follows unchanged |
| Stations.Without | App.tsx:68 | the filter keeps exactly the stations whose id differs and never grows the dial |
| Stations.WithoutAppend | App.tsx:68 | the filter keeps the order of what it keeps: it distributes over concatenation |
| Stations.WithoutAbsent | App.tsx:68 | deleting an id that is not on the dial leaves the dial unchanged |
| Stations.DeleteStation | App.tsx:67-70 | no station with the id is left and every other station stays; the selection is cleared iff it is the deleted station, and is otherwise kept |
| Stations.AddThenDelete | App.tsx:51-70 | adding a station with a fresh id and then deleting that id gives the old dial back |
| Stations.ImportThenDelete | App.tsx:56-70 | importing with fresh ids and then deleting each of those ids gives the old dial back |
| Stations.DeletePrepared | App.tsx:56-65 | deleting the ids of all imported stations removes all of them |
| Stations.DeleteAllMembers | App.tsx:67-70 | after a run of deletions, exactly the stations whose id was never deleted remain |
| Stations.DeleteAllAppend | App.tsx:67-70 | a run of deletions distributes over concatenated dials |
| Stations.DeleteAllAbsent | App.tsx:67-70 | deleting ids that are not on the dial leaves it unchanged |
| Stations.ToggleFavorite | App.tsx:72-74 | the flag of each station with the id is negated; ids, names, addresses, times and all other stations stay as they were |
| Stations.ToggleTwiceTruthiness | App.tsx:72-74 | toggling twice restores whether each station counts as a favourite |
| Stations.ToggleTwice | App.tsx:72-74 | toggling twice gives the same dial back iff no station with that id has its flag left out, which the default stations 2-4 do |
| Stations.ToggleTheme | App.tsx:76-78 | the theme always changes |
| Stations.ToggleThemeTwice | App.tsx:76-78 | toggling the theme twice restores it |
| StationList.AsWrittenComparatorInconsistent | components/StationList.tsx:25-28 | with the comparator as written, a station whose flag is left out and one whose flag is `false` are each ordered after the other |
| StationList.CompareAsWritten | components/StationList.tsx:25-28 | as written: equal raw flags put the newer station first; different raw flags give -1 iff the first is truthy, and 1 otherwise, even when neither is |
| StationList.Compare | components/StationList.tsx:25-28 | the corrected comparator puts a favourite before a non-favourite and, among equals, the newer station first |
| StationList.CompareAgrees | components/StationList.tsx:25-28 | when neither flag is left out, the corrected comparator gives the same answers as the one written |
| StationList.PrecedesTotalPreorder | components/StationList.tsx:25-28 | the corrected order is total and transitive, so a sort by it is well defined |
| StationList.Insert | components/StationList.tsx:25 | inserting adds exactly the one station to the sorted list |
| StationList.InsertSorted | components/StationList.tsx:25-28 | inserting into a list in display order keeps it in display order |
| StationList.SortForDisplay | components/StationList.tsx:25 | the sorted list is a permutation of the dial |
| StationList.SortSorted | components/StationList.tsx:25-28 | the sorted list is in display order |
| StationList.FavoritesFirst | components/StationList.tsx:25-28 | in the displayed list, no non-favourite stands before a favourite |
| StationList.NewestFirst | components/StationList.tsx:25-28 | among stations with the same favourite status, newer ones come first |
| StationList.TiedWith | components/StationList.tsx:25-28 | every station picked out ties with the given one: the same favourite status and the same time |
| StationList.TieIsTransitive | components/StationList.tsx:25-28 | a station that may not precede another ties with nothing that the other ties with |
| StationList.InsertTied | components/StationList.tsx:25 | inserting puts the new station ahead of every station it ties with and keeps their order |
| StationList.SortStable | components/StationList.tsx:25-28 | the display sort is stable, as `Array.prototype.sort` is: stations that tie keep their dial order |
| StationList.DisplayUrl | components/StationList.tsx:55 | a lower-case `http://` or `https://` prefix is removed from the shown address; any other address is shown as it is |
| StationList.DisplayUrlStripsScheme | components/StationList.tsx:55 | an address with the scheme the form adds is shown without it |
| StationList.CurrentStationId | App.tsx:135 | a selected station gives its id unless that id is empty, which counts as no selection |
| StationList.Render | components/StationList.tsx:15-33 | an empty dial shows the empty state; otherwise there is one row per station, in display order |
| StationList.RenderShowsEveryStation | components/StationList.tsx:25-58 | the rows show every station exactly as often as it is on the dial, and a row is active iff its station is the selected one |
| StationList.RowStations | components/StationList.tsx:32 | the stations of the rows, in row order |
| Text.TrimStart | components/AddStationForm.tsx:20-21 | the result is no longer than the input and does not start with white space |
| Text.TrimStartSpec | components/AddStationForm.tsx:20-21 | the removed part of the input is all white space and the result is the rest of the input |
| Text.TrimEnd | components/AddStationForm.tsx:20-21 | the result is no longer than the input and does not end with white space |
| Text.TrimEndSpec | components/AddStationForm.tsx:20-21 | the removed part of the input is all white space and the result is the rest of the input |
| Text.Trim | components/AddStationForm.tsx:20-21 | the result neither starts nor ends with white space |
| Text.TrimRemovesOnlyEnds | components/AddStationForm.tsx:20-21 | the result is a contiguous piece of the input with only white space cut off both ends |
| Text.TrimIdempotent | components/AddStationForm.tsx:20-21 | trimming twice is the same as trimming once |
| Text.TrimEmptyIff | components/AddStationForm.tsx:20 | a trimmed text is empty (falsy) iff the input is all white space |
| Text.IsSpace | components/AddStationForm.tsx:20-21 | every line terminator is white space for `trim`, and no digit, `#` or comma is |
| Text.HasScheme | components/AddStationForm.tsx:23 | an address starting with `http://` or `https://` passes the test, and one that passes has `://` after four or five letters |
| Text.IndexOf | components/RadioPlayer.tsx:389-390 | the position of the first occurrence, or the length when there is none |
| Text.IndexOfAfter | components/RadioPlayer.tsx:389-390 | the first occurrence is found right after a prefix that does not hold the character |
| Text.NatToString | components/RadioPlayer.tsx:414-415 | the decimal text of a number is non-empty, all digits and has no leading zero |
| Text.DecimalOfNatToString | components/RadioPlayer.tsx:414-415 | reading the decimal text of a number gives the number back |
| Text.NatToStringInjective | components/RadioPlayer.tsx:414-415 | different numbers have different decimal texts |
| Text.Pad2 | components/AddStationForm.tsx:47-54 | `padStart(2, '0')` gives at least two digits, and exactly two below 100 |
| Text.Pad2Value | components/AddStationForm.tsx:47-54 | the padded text reads back as the number |
| Text.StampDateFields | components/AddStationForm.tsx:47-50 | the date part of a stamp holds the padded day and month at fixed places |
| Text.StampTimeFields | components/AddStationForm.tsx:52-55 | the time part of a stamp holds the padded hours, minutes and seconds at fixed places |
| Text.StampInjective | components/AddStationForm.tsx:46-58 | two different valid date-times give different stamps |
| Text.Stamp | components/AddStationForm.tsx:46-58 | the stamp is the date part, the year and the time part, 15 characters more than the year for a valid date-time |
| Text.LeadingDigits | components/RadioPlayer.tsx:383 | the longest run of digits at the front of the text |
| Text.ParseInt | components/RadioPlayer.tsx:383 | decimal `parseInt` is `NaN` exactly when no digit follows the leading white space and sign |
| Text.ParseIntOfNatToString | components/RadioPlayer.tsx:383 | `parseInt` reads the decimal text of a number back as that number |
| Playlist.NormalizeUrl | components/AddStationForm.tsx:21-25 | the stored address always has an `http://` or `https://` scheme in either case; a trimmed address that has one is kept as it is |
| Playlist.NormalizeUrlAddsScheme | components/AddStationForm.tsx:23-25 | an address without a scheme gets `https://` in front of its trimmed text |
| Playlist.NormalizedIsTrimmed | components/AddStationForm.tsx:21-25 | the stored address has no white space at either end |
| Playlist.NormalizeUrlIdempotent | components/AddStationForm.tsx:21-25 | normalising an address twice is the same as once |
| Playlist.Submit | components/AddStationForm.tsx:18-32 | the form adds a station iff both name and address have non-blank text; the station is the trimmed name with the normalised address |
| Playlist.SubmittedIsClean | components/AddStationForm.tsx:18-32 | an added station's name and address are non-empty and trimmed, and the address has a scheme |
| Playlist.ExportPlaylist | components/AddStationForm.tsx:34-61 | an empty dial exports nothing; otherwise the file is the playlist text of the dial, named by the backup name of the current time |
| Playlist.M3u | components/AddStationForm.tsx:37-40 | the playlist starts with the `#EXTM3U` header line and ends with a line feed |
| Playlist.Body | components/AddStationForm.tsx:38-40 | the body is empty iff the dial is, and otherwise ends with a line feed |
| Playlist.EntryText | components/AddStationForm.tsx:39 | a station contributes its tag line and its address line, each ended by a line feed |
| Playlist.Tag | components/AddStationForm.tsx:39 | the tag line is `#EXTINF:`, the duration `-1` and a comma, then the name as its tail |
| Playlist.M3uSnoc | components/AddStationForm.tsx:37-40 | each station adds its two lines at the end of the playlist text |
| Playlist.BodySnoc | components/AddStationForm.tsx:38-40 | each station adds its two lines at the end of the body |
| Playlist.BackupNameInjective | components/AddStationForm.tsx:46-58 | backups made at different seconds get different file names |
| Playlist.BackupName | components/AddStationForm.tsx:46-58 | the file name starts with `backupWaveTuner-` and ends with `.m3u` |
| Playlist.SplitLines | components/AddStationForm.tsx:72 | splitting always gives at least one line |
| Playlist.SplitLinesCons | components/AddStationForm.tsx:72 | a text split at its first newline gives the first line, without a final carriage return, then the lines of the rest |
| Playlist.DropCr | components/AddStationForm.tsx:72 | at most one carriage return is dropped, and exactly when the piece ends with one |
| Playlist.RestOfLine | components/AddStationForm.tsx:81 | what `(.*)` captures is the longest prefix of the text without a line terminator |
| Playlist.CommaGroup | components/AddStationForm.tsx:81 | a captured name never spans a line break |
| Playlist.MatchExtinf | components/AddStationForm.tsx:81 | the name a match gives never spans a line break |
| Playlist.Step | components/AddStationForm.tsx:77-89 | one line adds at most one entry, at the end, and leaves the earlier entries as they were |
| Playlist.Run | components/AddStationForm.tsx:76-90 | reading lines only appends entries, at most one per line |
| Playlist.Parse | components/AddStationForm.tsx:72-90 | a file yields at most one entry per line |
| Playlist.ParseEmpty | components/AddStationForm.tsx:70 | an empty file yields no entries |
| Playlist.ReadLine | components/AddStationForm.tsx:77-89 | one pass of the loop body moves the pending name and the imported list as the reader's step function does |
| Playlist.ReadPlaylist | components/AddStationForm.tsx:68-95 | the file is imported iff reading it yields at least one entry, and then exactly those entries are imported |
| Playlist.RunStep | components/AddStationForm.tsx:76-90 | reading from line `i` is one step on line `i` followed by reading from `i+1` |
| Playlist.ExtinfIsDirective | components/AddStationForm.tsx:80-83 | a tag line is never taken as an address |
| Playlist.StepImported | components/AddStationForm.tsx:83-88 | a line adds an entry iff it is an address line, and then the entry has that line as its address |
| Playlist.RunYieldsAddressLines | components/AddStationForm.tsx:76-90 | the imported addresses are exactly the non-blank lines that do not start with `#`, trimmed, in file order |
| Playlist.ReadCount | components/AddStationForm.tsx:76-92 | the number of imported entries is the number of address lines, so a file is imported iff it has one |
| Playlist.StepPendingTrimmed | components/AddStationForm.tsx:81-82 | the pending name is always trimmed |
| Playlist.PendingOrWellNamed | components/AddStationForm.tsx:85 | with a trimmed pending name, the new entry's name is either a non-empty trimmed name or the fallback `Radio n` for its position n |
| Playlist.AppendWellNamed | components/AddStationForm.tsx:84-87 | appending a well-named entry keeps every entry well named for its position |
| Playlist.StepKeepsNamesWellFormed | components/AddStationForm.tsx:77-89 | one line keeps the pending name trimmed and every entry's name non-empty and trimmed, or the fallback for its position |
| Playlist.RunKeepsNamesWellFormed | components/AddStationForm.tsx:76-90 | the whole read keeps those naming rules |
| Playlist.NoCommaNoMatch | components/AddStationForm.tsx:81-82 | a tag line without a comma leaves the pending name as it was |
| Playlist.CommaGroupNeedsComma | components/AddStationForm.tsx:81 | the lazy `.*?,` group needs a comma |
| Playlist.FirstComma | components/AddStationForm.tsx:81 | the lazy `.*?,` stops at the first comma: the group is the rest of the line after it |
| Playlist.ExtinfFirstComma | components/AddStationForm.tsx:81 | a line `#EXTINF:` p `,` q, with p free of commas and line breaks, names the rest of the line of q |
| Playlist.EntriesOf | components/AddStationForm.tsx:39 | the exported entries are the dial's names and addresses, in order |
| Playlist.ExtinfOfTag | components/AddStationForm.tsx:81 | the reader gets back, from an exported tag line, the name that was written into it |
| Playlist.TagIsOneLine | components/AddStationForm.tsx:39 | a tag line of a name without line breaks holds no newline |
| Playlist.TagIsTrimmed | components/AddStationForm.tsx:77-80 | a tag line of a trimmed name survives the reader's trim and starts with the tag |
| Playlist.StepTag | components/AddStationForm.tsx:80-82 | reading a tag line sets the pending name to the tag's name |
| Playlist.StepAddress | components/AddStationForm.tsx:83-88 | reading an address line imports it under the pending name and clears that name |
| Playlist.StepHeader | components/AddStationForm.tsx:83 | the header line changes nothing |
| Playlist.SplitEntry | components/AddStationForm.tsx:72 | a station's two exported lines split back into its tag line and its address |
| Playlist.SplitBody | components/AddStationForm.tsx:72 | the body splits into the stations' line pairs, then one empty line |
| Playlist.SplitM3u | components/AddStationForm.tsx:72 | the exported text splits into the header, the line pairs and one empty line |
| Playlist.RunEntry | components/AddStationForm.tsx:76-90 | reading a station's line pair imports that station's name and address |
| Playlist.RunPairs | components/AddStationForm.tsx:76-90 | reading the line pairs of a list of stations imports their names and addresses, in order |
| Playlist.ReadPairs | components/AddStationForm.tsx:76-90 | reading the exported pairs and the final empty line ends with no pending name and the dial's entries imported |
| Playlist.ReadExportedLines | components/AddStationForm.tsx:76-90 | reading all exported lines imports the dial's entries |
| Playlist.ExportThenImport | components/AddStationForm.tsx:34-95 | importing an exported non-empty dial, whose names are non-empty, trimmed and free of line breaks and whose addresses are non-empty, trimmed, single-line and do not start with `#`, gives back every station's name and address in order |
| Scheduler.FindStation | components/RadioPlayer.tsx:288 | finds a station on the dial with the id, and finds none iff the dial has none |
| Scheduler.CheckSchedule | components/RadioPlayer.tsx:262-300 | no schedule does nothing; a stop happens only while recording; a start or a station switch happens only when idle, not loading, in the window and on a listed day; a switch goes to a listed station with the scheduled id that is not the one playing |
| Scheduler.TimerRule | components/RadioPlayer.tsx:269-276 | a timer stops the session iff it has a duration, a recording is running and the duration has elapsed; it never starts anything |
| Scheduler.WindowRule | components/RadioPlayer.tsx:285-293 | in the window, on a listed day and idle: recording starts, unless another listed station is scheduled, which is selected, or an unlisted one, which does nothing |
| Scheduler.StopRule | components/RadioPlayer.tsx:278-299 | a schedule without a timer stops the session iff it has a window, a recording is running and the end has been reached |
| Scheduler.WrongDayKeepsRecording | components/RadioPlayer.tsx:281-298 | a recording running on a day not listed is not stopped before the window's end |
| Scheduler.NothingStartsAfterEnd | components/RadioPlayer.tsx:278-298 | after the window's end nothing starts and no station is selected |
| Scheduler.NumberOf | components/RadioPlayer.tsx:389-390 | a time piece that reads as a number is never negative |
| Scheduler.ClockTime | components/RadioPlayer.tsx:389-390 | a time without a colon does not read; a time that reads has non-negative hours and minutes |
| Scheduler.ClockTimeOfPadded | components/RadioPlayer.tsx:389-390 | a time written as the time input writes it reads back as its hours and minutes |
| Scheduler.At | components/RadioPlayer.tsx:398-399 | a valid time of day falls within the chosen day |
| Scheduler.Window | components/RadioPlayer.tsx:391-400 | the start is the start time on the chosen day; the end is the end time on that day, moved on by exactly one day only when it falls before the start |
| Scheduler.WindowWithinDay | components/RadioPlayer.tsx:391-400 | with valid times, the window starts on the chosen day, does not end before it starts, and lasts less than a day |
| Scheduler.WindowRollsOver | components/RadioPlayer.tsx:400 | the end moves to the next day iff its time of day is before the start's |
| Scheduler.TimerSeconds | components/RadioPlayer.tsx:383 | the timer length is sixty times the parsed minutes, and `NaN` when the input does not parse |
| Scheduler.ApplySchedule | components/RadioPlayer.tsx:381-410 | timer mode always arms a timer and makes a start due, to run 100 ms later; time mode arms a schedule iff both times are filled in, dated or daily as chosen, with the days only when daily, and the chosen station or else the one playing |
| Scheduler.TimerOfMinutes | components/RadioPlayer.tsx:382-386 | a timer of n minutes stops a recording once 60·n seconds have elapsed, and not before |
| Scheduler.DailyDoesNotRecur | components/RadioPlayer.tsx:391-407 | a day after its start, a daily schedule never starts a recording or switches station again |
| Scheduler.Remove | components/RadioPlayer.tsx:377 | the filter removes exactly the day |
| Scheduler.RemoveAscending | components/RadioPlayer.tsx:377 | removing a day keeps the list ascending |
| Scheduler.RemoveAbsent | components/RadioPlayer.tsx:377 | removing a day not in the list changes nothing |
| Scheduler.InsertDay | components/RadioPlayer.tsx:377 | inserting adds exactly the one day |
| Scheduler.InsertDayAscending | components/RadioPlayer.tsx:377 | inserting into an ascending list keeps it ascending |
| Scheduler.SortDays | components/RadioPlayer.tsx:377 | the numeric sort is a permutation of its input |
| Scheduler.SortDaysAscending | components/RadioPlayer.tsx:377 | the numeric sort is ascending |
| Scheduler.InsertDayOfSorted | components/RadioPlayer.tsx:377 | sorting an ascending list changes nothing |
| Scheduler.InsertAtEnd | components/RadioPlayer.tsx:377 | a day no smaller than any other goes at the end |
| Scheduler.ToggleDay | components/RadioPlayer.tsx:375-379 | toggling flips the membership of that day and keeps every other day as it was |
| Scheduler.ToggleDayAscending | components/RadioPlayer.tsx:375-379 | toggling keeps the day list ascending |
| Scheduler.ToggleDayTwice | components/RadioPlayer.tsx:375-379 | toggling a day twice restores a strictly ascending list |
| Scheduler.ToggleDayStrictlyAscending | components/RadioPlayer.tsx:375-379 | toggling keeps the day list strictly ascending, so without repeats |
| Scheduler.RemoveStrictlyAscending | components/RadioPlayer.tsx:377 | removing a day keeps the list strictly ascending |
| Scheduler.InsertDayStrictlyAscending | components/RadioPlayer.tsx:377 | inserting a new day into a strictly ascending list keeps it strictly ascending |
| Scheduler.SortAppend | components/RadioPlayer.tsx:377 | sorting an ascending list with one day appended inserts that day in place |
| Scheduler.InsertRemoved | components/RadioPlayer.tsx:377 | removing a day and putting it back restores a strictly ascending list |
| Scheduler.RemoveInserted | components/RadioPlayer.tsx:377 | putting in a new day and removing it restores the list |
| Scheduler.FormatDuration | components/RadioPlayer.tsx:412-416 | the display is the whole minutes, a colon, then the seconds padded to two digits |
| Scheduler.FormatDurationReadsBack | components/RadioPlayer.tsx:412-416 | the display is minutes, a colon and two digits of seconds below 60, which read back as the elapsed seconds |
| Scheduler.FormatDurationInjective | components/RadioPlayer.tsx:412-416 | different elapsed times are displayed differently |
| Recorder.ConcatSnoc | components/RadioPlayer.tsx:243-246 | a chunk pushed at the end adds its bytes at the end |
| Recorder.Outputs | components/RadioPlayer.tsx:243 | one encode output per block fed |
| Recorder.ProducedSnoc | components/RadioPlayer.tsx:243-246 | feeding one more block adds that call's output at the end of everything produced |
| Recorder.Truncate | components/RadioPlayer.tsx:236-241 | storing into a 16-bit array truncates toward zero |
| Recorder.Sample | components/RadioPlayer.tsx:239-240 | a sample is clamped to ±32767, full scale at or past ±1, with the sign of the input |
| Recorder.SampleMonotone | components/RadioPlayer.tsx:239-240 | a louder input never gives a smaller sample |
| Recorder.TruncateMonotone | components/RadioPlayer.tsx:239-240 | truncation toward zero is monotone |
| Recorder.ToPcm | components/RadioPlayer.tsx:236-241 | a fresh array of the same length with each float sample converted |
| Recorder.RecordingNameInjective | components/RadioPlayer.tsx:165-175 | two recordings of one station made at different seconds get different names |
| Recorder.RecordingName | components/RadioPlayer.tsx:165-175 | the recording is named after the station, or `Radio` when none is playing or its name is empty, and ends with `.mp3` |
| Recorder.PcmBlock | components/RadioPlayer.tsx:236-241 | each channel keeps its length and every float sample becomes its 16-bit sample |
| Recorder.StartedFrom | components/RadioPlayer.tsx:225-256 | the started state: recording on, no chunks, a fresh stereo encoder at the context's rate and the chosen quality, the context ready, one more tap and interval held; elapsed time and stopping flag kept |
| Recorder.StartKeepsWired | components/RadioPlayer.tsx:206-258 | a start never leaves a held handle dead or a tap without an encoder |
| Recorder.StartKeepsValid | components/RadioPlayer.tsx:206-258 | starting from an idle valid session gives a valid session |
| Recorder.RestartBreaksValid | components/RadioPlayer.tsx:206-258 | starting while recording leaves two taps and two intervals, so the session is no longer valid |
| Recorder.ReleasedFrom | components/RadioPlayer.tsx:184-200 | after the release the stopping flag is up, recording is off, the held handles are gone with their counts one lower, and chunks, elapsed time and encoder are kept |
| Recorder.StoppedFrom | components/RadioPlayer.tsx:184-204 | the stopped state: not recording, no chunks, the held handles released, the elapsed time reset iff there were chunks, encoder, context and stopping flag kept |
| Recorder.ReleaseThenSave | components/RadioPlayer.tsx:184-204 | a stop is the release followed by the save, with the stopping flag lowered again; the release keeps the wiring the save needs |
| Recorder.StopKeepsValid | components/RadioPlayer.tsx:184-204 | a stop keeps the wiring, and keeps a valid session valid with no tap and no interval left |
| Recorder.FedFrom | components/RadioPlayer.tsx:243-246 | feeding appends the block to the encoder's input and the output to the chunks iff it is non-empty; nothing else changes |
| Recorder.FeedKeepsValid | components/RadioPlayer.tsx:243-246 | feeding keeps the wiring, and keeps a valid recording valid: the chunks stay everything produced |
| Recorder.SavedFrom | components/RadioPlayer.tsx:179-181 | saving empties the chunks and resets the elapsed time iff there were chunks; nothing else changes |
| Recorder.SavedFile | components/RadioPlayer.tsx:152-182 | no file iff there are no chunks; the file is named after the station and the time and starts with the chunks' bytes |
| Recorder.SavedIsProduced | components/RadioPlayer.tsx:152-182 | for a valid recording with chunks, the saved bytes are everything the encoder produced, then the flush output |
| Recorder.Session.constructor | components/RadioPlayer.tsx:60-72 | a new session is valid and idle, with no elapsed time, no schedule and no audio context |
| Recorder.Session.StartAsWritten | components/RadioPlayer.tsx:206-258 | as written: nothing while stopping; a play request while paused; otherwise the started state (a fresh encoder, no chunks, recording on, the audio context ready, one more processor and one more interval), even while a recording runs, with the elapsed time, the stopping flag and the schedule kept |
| Recorder.Session.Start | components/RadioPlayer.tsx:206-258 | the corrected start: nothing while recording; a play request while paused; otherwise the started state with exactly one processor and one interval; the session stays valid |
| Recorder.Session.Feed | components/RadioPlayer.tsx:243-246 | the block goes to the encoder and its output is pushed iff non-empty; every other field is kept, and the chunks stay the concatenation of everything produced |
| Recorder.Session.OnAudioProcess | components/RadioPlayer.tsx:231-247 | both channels are converted sample by sample and fed as one block; every other field is kept and a valid session stays valid |
| Recorder.Session.OneSecond | components/RadioPlayer.tsx:254-256 | each running interval adds one second to the elapsed time |
| Recorder.Session.Save | components/RadioPlayer.tsx:152-182 | no chunks saves nothing and changes nothing; otherwise the file is named after the station and the time and holds the chunks then the flush output, and the chunks and the elapsed time are reset while every other field is kept |
| Recorder.Session.Release | components/RadioPlayer.tsx:184-200 | the first half of a stop: the stopping flag goes up, recording ends and the held interval and processor are released; chunks, encoder and schedule are kept |
| Recorder.Session.Stop | components/RadioPlayer.tsx:184-204 | nothing while stopping; otherwise the stopped state, with the chunks saved as a named file; for a valid recording with chunks the file is everything produced plus the flush output; the session stays valid |
| Recorder.Session.Tick | components/RadioPlayer.tsx:262-300 | one tick, on any wired state including the one an unguarded restart leaves, takes the schedule's decision on the current state and carries it out: a stop clears the schedule, moves to the stopped state and hands out the saved file (nothing more while a stop already runs); a start runs `startRecording` as written, changing nothing while paused and otherwise moving to the started state; the rest change nothing; a valid session stays valid |
| Recorder.Session.Arm | components/RadioPlayer.tsx:381-410 | arms the schedule built from the form and changes nothing else; a start is due exactly in timer mode, and is left to a later call, as the 100 ms timeout defers it |
| Recorder.StopAfterRestartLeaks | components/RadioPlayer.tsx:269-276 | when the monitor stops a recording that an unguarded restart doubled, one processor and one interval stay live on the idle session |
| Recorder.TimerWhileRecordingAsWritten | components/RadioPlayer.tsx:206-258 | arming a timer while recording and then running the delayed `startRecording`, as written, throws away the encoded bytes and leaves two processors and two intervals running |
| Recorder.TimerWhileRecording | components/RadioPlayer.tsx:206-258 | with the corrected start, the recording keeps its bytes and one processor and one interval |
| Recorder.Playback.constructor | components/RadioPlayer.tsx:73-77 | the player starts stopped, without error, at volume 0.7 and not muted |
| Recorder.Playback.OnPlay | components/RadioPlayer.tsx:310-314 | playing, not buffering, keep-alive on; nothing else changes |
| Recorder.Playback.OnPause | components/RadioPlayer.tsx:315-318 | not playing, keep-alive off; nothing else changes |
| Recorder.Playback.OnLoadStart | components/RadioPlayer.tsx:319 | loading and buffering, error cleared; nothing else changes |
| Recorder.Playback.OnCanPlay | components/RadioPlayer.tsx:320 | not loading, not buffering, error cleared; nothing else changes |
| Recorder.Playback.OnWaiting | components/RadioPlayer.tsx:321 | buffering; nothing else changes |
| Recorder.Playback.OnPlaying | components/RadioPlayer.tsx:322 | not buffering; nothing else changes |
| Recorder.Playback.OnError | components/RadioPlayer.tsx:323-330 | every activity flag down, the network message shown and one more reload scheduled, with no cap |
| Recorder.Playback.RetryFires | components/RadioPlayer.tsx:329 | a scheduled reload reloads the stream iff a station is selected |
| Recorder.Playback.Tune | components/RadioPlayer.tsx:351-360 | a new station clears the error and, if there is one, requests a pause, loads the stream once and then requests a play, in that order; the flags are left to the element's events |
| Recorder.Playback.TogglePlay | components/RadioPlayer.tsx:366-373 | nothing without a station; a pause while playing; a play otherwise |
| Recorder.Playback.PlayRefused | components/RadioPlayer.tsx:371 | a refused play shows the unavailable-stream message |
| Recorder.Playback.ToggleMute | components/RadioPlayer.tsx:569 | mute flips and the volume setting is kept, so un-muting restores the sound |
| Recorder.Playback.Slide | components/RadioPlayer.tsx:570 | the slider sets the volume and un-mutes, so the sound heard is the slider's value |
| Recorder.Playback.EffectiveVolume | components/RadioPlayer.tsx:363 | the volume heard, which the slider also shows, is zero exactly when the muted icon is shown |

## Left out

- The service worker (sw.js) and the page entry point (index.tsx) are not part of this model.
- Rendering, React's scheduling of state updates and effects, and the JSX layout are left out. A state update is taken as done when the handler that makes it returns.
- Saving the dial, the theme and the recording quality in local storage, and reading them back as JSON, are left out. So is the fallback to the default stations when the stored dial cannot be read.
- The recording quality is an input of `Recorder.Session.Start`. The choice among 128, 192 and 320 kbit/s, with 192 as default, is not checked.
- `uuidv4` and `Date.now()` are inputs: fresh ids and the current time are passed in.
- The browser clock and time zones are inputs. Each day is given by its local midnight in milliseconds, and the day of the week and the date fields are given too. Daylight-saving shifts and `Date` overflow for out-of-range fields are not modelled. Neither is reading the date field into a day.
- Years are modelled as natural numbers. A negative year would be written with a sign.
- The MP3 encoder is an abstract pair of functions (`Recorder.Lame`). Its internals are not modelled.
- The Web Audio graph is reduced to counts of connected processors and running intervals. This covers creating the audio context, resuming it, and connecting and disconnecting nodes.
- The keep-alive heartbeat and the wake lock are reduced to one flag set by play and pause. The heartbeat's oscillator and the wake-lock requests are left out.
- Float samples are real numbers. Float rounding and `NaN` samples are not modelled.
- Blobs, object URLs, download links and `FileReader` are left out. A file is its name and its text or bytes.
- Timers become explicit calls: the monitor's one-second tick, the recording's one-second interval, the 100 ms delayed start of a timer recording (a call of its own after `Recorder.Session.Arm`, so ticks may come in between) and the 2 s delayed reload after an error. The delays' lengths and which callback fires first are left to the caller.
- `Text.ParseInt`: the `0x` prefix that `parseInt` accepts without a radix is not modelled.
- `Scheduler.NumberOf`: `Number()` on a time piece with white space, a sign, a fraction or an exponent is not modelled. Only empty pieces and pieces of digits are, which the time input produces.
- A missing audio element (`audioRef.current` being null) is not modelled: the player always has one.
- The user-visible texts other than the two playback messages are left out: labels, the empty-dial prompt and the message asking the user to press play before recording.

## Findings

| source | as written | input that shows it | evidently intended | confidence | as-written member | corrected member |
|---|---|---|---|---|---|---|
| components/StationList.tsx:25-28 | the comparator compares the raw favourite flags with `===`, so a flag left out (`undefined`) differs from `false`, and each station is ordered after the other | default station `2` (App.tsx:15, flag left out) and any added station (flag `false`): `compare(a, b)` and `compare(b, a)` are both 1, so the order the sort produces depends on the engine | compare by truthiness: favourites first, then newest first | not executed | StationList.AsWrittenComparatorInconsistent | StationList.SortSorted |
| components/RadioPlayer.tsx:206-258 | starting a recording does not check whether one is already running: it replaces the encoder, empties the chunks and connects a second processor and a second interval, while the first ones stay connected | press record, then activate a timer in the scheduler (components/RadioPlayer.tsx:382-386 starts a recording after 100 ms) | starting while a recording runs changes nothing | not executed | Recorder.TimerWhileRecordingAsWritten | Recorder.TimerWhileRecording |
