# A verified model of QuTTY's stateful core

QuTTY is a Qt terminal built on PuTTY's C sources. Most of it is widgets and
plumbing; this project models the parts that keep state and proves what they
keep. Code that works in place is modelled in place, as classes and arrays with
loops; each method is proved against a specification on values, and the theorems
are about that specification. What comes from outside (the clock, answers of the
user, of the operating system and of a backend, how much of a buffer is shown at
a time, what a callback does) is a parameter or an arbitrary choice, so every
statement holds for all of it.

| files | what they model |
|---|---|
| `PaneForest`, `PaneWindow` | the layout of split terminals: a heap tree with parent pointers and two child collections per splitter |
| `Ticks`, `TimerQueue`, `TimerState`, `PingerRules`, `TimerSystem` | the timer engine on a wrapping clock, the pinger, and the one Qt timer |
| `LdiscRules`, `Ldisc` | the line discipline: a byte queue and a linked run-length list of type tags |
| `CallbackQueue` | the queue of deferred callbacks |
| `SettingsMap`, `SettingsStore` | string maps written to and parsed in place from one settings string |
| `PrefsRules`, `PrefsConf`, `PrefsTables` | preference lists completed by dependency-ordered insertion |
| `HexDumpRules`, `HexDump` | the packet dump of the session log |
| `LogStream` | the log file: asynchronous open, queue, write errors |
| `SessionPaths`, `SessionTree`, `SessionRename` | the tree of saved sessions, lookup by path, and renaming |

A forest of panes is a value; `PaneWindow.MainWindow.Valid` ties every field of
every heap object (`parentSplit`, `child`, widget order, tabs) to it. A timer's
unbounded deadline is `Unwrap(clock, word)`, the time within half the word range
of the clock that has this low word. A run of the timers is logged as events, and
`TimerState.Inv` is the invariant of all reachable states.

## What the proofs turned up

- timing.c:124 means to move a timer asked for in the past to the near future,
  but compares unsigned words, so it only catches a request for exactly now
  (`TimerQueue.PastRequestIsKept`). The settings window takes a negative number for
  the seconds between keepalives (GuiSettingsWindow.cpp:456 and :965), and then
  pinger.c:32-37 asks for such a timer. It goes to the head of the set and is
  never due, so no timer behind it fires, and Qt wakes run_timers up every
  millisecond (`TimerState.PastBecomesHead`, `TimerSystem.TimerSystem.RunTimers`,
  `TimerSystem.TimerSystem.TimerEvent`).
- ldisc.c:386 consumes `len` where the send went out from `data + pos`; a pass
  that fed a userpass editor and then sends plain data leaves bytes queued that
  were already processed (`Ldisc.SentAndQueued` is an instance,
  `Ldisc.Ldisc.Pass` has the exact condition). The policy on sendok at
  putty.h:765-770 keeps such passes from occurring.
- ldisc.c:269-299: an empty special string leaves a chunk of size zero; that is
  the only way to spoil the list (`LdiscRules.AppendCanonical`). Data of another
  type after it makes ldisc_input_queue_callback go round without effect while
  the backend says yes (`Ldisc.Ldisc.StuckPass`).
- callback.c:44-69 deletes a queued idempotent callback without clearing its
  `queued` flag, so it is never queued or run again
  (`CallbackQueue.CallbackQueue.QueueIdempotent`, `Drain`;
  `CallbackQueue.QueueDeleteQueue` is an instance).
- settings.c:203-325: a port forwarding survives saving and loading exactly if
  `SettingsMap.Reloadable` holds of it; a list of names, exactly if none is empty.
- QtCommon.cpp:805 always says that opening the log loses nothing, so an existing
  log is overwritten whatever the setting says (`LogStream.LogContext.LogFopen`).
- GuiSettingsWindow.cpp:1189-1203 renames top down and without looking, and loses
  sessions in three ways. A new name with a slash can fall on a session further
  down before that one has moved (`SessionRename.SlashLosesSession`); a session
  dragged to a folder that has one of the same name takes its place
  (`SessionRename.DragLosesSession`); and that leaves two items of one name, so that
  moving the folder moves the session twice, the second time from a name that holds
  nothing (`SessionRename.TwiceLosesSession`). `SessionRename.MovedExactly`,
  `SessionRename.RenameMeans` and `SessionRename.OthersExactly` have the exact
  conditions. A folder without a configuration gets a default one by being moved.
- GuiSettingsWindow.cpp:1070-1071 looks a name up before it takes a final slash
  off, so "a" and "a/" make two items of the path "a", and "/" replaces the root in
  the index. A name that begins with a slash, as "/a", gets an item at the top with
  the text "a". Looking "a" up finds that item, so that the sessions "a" and "a/b"
  are lost to the lookup too (`SessionTree.SessionTree.SlashInTheWay`).
  `SessionTree.SessionTree.LoadSessionNames` has the exact condition on the names
  under which every path finds its item.
- GuiSplitter.cpp:40-53 takes the index of a tab before the dropped tab is gone, so
  the new splitter can come out one place too far to the right
  (`PaneWindow.DropOnTabPlace`, with `PaneWindow.TabAstray` an instance).

## Model

| member | source | states |
|---|---|---|
| PaneForest.SubstLeaves | GuiSplitter.cpp:67-103 | What takes the place of a pane takes its place in the order of terminals, and every other terminal keeps its own |
| PaneForest.SubstWellFormed | GuiSplitter.cpp:34-103 | Replacing a pane by a well-formed piece of layout keeps the layout a tree with each pane once and two or more panes in every splitter |
| PaneForest.RemoveFacts | GuiSplitter.cpp:118-139 | Removal keeps the layout well formed, takes away exactly the subtree (and a splitter left with one pane), and keeps the number of roots unless a root goes |
| PaneForest.RemoveLeaves | GuiSplitter.cpp:118-139 | After removal the remaining terminals are in the order they were in |
| PaneForest.RemoveIsTwoSteps | GuiSplitter.cpp:118-139 | Removing is taking the pane out and then collapsing its splitter if one pane is left, as the code does in turn |
| PaneForest.BesideThenRemove | GuiSplitter.cpp:67-103 | Splitting inside a splitter of the same orientation and removing the new terminal gives back the very same layout |
| PaneForest.NestThenRemove | GuiSplitter.cpp:34-103 | The same for a split that nests a new splitter |
| PaneForest.OpenThenRemove | GuiMainWindow.cpp:336-347 | Opening a terminal in a tab and removing it again gives back the very same layout |
| PaneForest.ClosingStep | GuiSplitter.cpp:24-32 | Closing any one of the remaining panes of a splitter moves on to the next stage, also when the splitter, or the one above, collapses with it |
| PaneForest.ClosingRound | GuiSplitter.cpp:24-32 | The next pane of the copy is still in the layout, its subtree is smaller than the splitter's, and closing it leaves the others: the loop's measure and invariant |
| PaneWindow.HoldsSubst | GuiSplitter.cpp:105-139 | Replacing a subtree on the heap needs changes at its container and inside the piece, and at no other pane |
| PaneWindow.SplitShapes | GuiSplitter.cpp:34-103 | A split of a terminal gives a well-formed layout with the new terminal next to the old one, on the side asked for |
| PaneWindow.AddBaseWidget | GuiSplitter.cpp:105-109 | The pane is in both child collections, at its place in the widget order, with the parent pointer set; nothing else changes |
| PaneWindow.RemoveBaseWidget | GuiSplitter.cpp:111-116 | The pane leaves both collections and loses its parent pointer; the rest keep their order |
| PaneWindow.MainWindow.CreateSplitLayout | GuiSplitter.cpp:34-103 | The layout on the heap becomes the old one with the terminal replaced by the pair, in the splitter it was in if that has the orientation (vertical for up and down), in a new one otherwise; the new terminal comes right after the old one for down and right and right before it for up and left, among the terminals as they were; Valid is kept |
| PaneWindow.MainWindow.RemoveSplitLayout | GuiSplitter.cpp:118-139 | The layout becomes Remove of the old one, with parent pointers, child vectors, widget orders and tabs to match |
| PaneWindow.MainWindow.CloseTerminal | GuiTerminalWindow.cpp:869-878 | Closing a terminal removes it from the layout and from the list of terminals, and nothing else |
| PaneWindow.MainWindow.RequestClose | GuiSplitter.cpp:24-32 | Closing a splitter closes exactly what is below it, whatever collapses meanwhile; its child vector is empty at the end, and the recursion terminates |
| PaneWindow.MainWindow.constructor | GuiMainWindow.cpp:32-66 | A new window is empty: a layout that meets Valid and Listed, where every run starts |
| PaneWindow.MainWindow.OpenTab | GuiMainWindow.cpp:336-347 | A new terminal is one more tab, at its index or at the end if that is out of range, and everything else stays |
| PaneWindow.MainWindow.SetupLayout | GuiMainWindow.cpp:332-362 | The first terminal always gets a tab; a split without a current terminal fails and changes nothing; else the new terminal is added to layout and list |
| PaneWindow.MainWindow.OpenSplit | GuiMainWindow.cpp:346-356 | A new terminal enters the list of terminals and the layout next to the current one, on the side of its direction, in a splitter of its orientation |
| PaneWindow.MainWindow.Drop | GuiDrag.cpp:207-210 | A dropped terminal leaves its splitter or its tab and appears right next to the target, on the side of its direction, with all others in the order they were in; the list of terminals is kept; when both were tabs, the exact tab order |
| PaneWindow.DropOnTabPlace | GuiSplitter.cpp:39-58 | A tab dropped on a tab puts the new splitter in the place of the target if and only if it came after the target or the target was the last tab |
| PaneWindow.TabAstray | GuiSplitter.cpp:39-58 | The first of four tabs dropped on the third: the new splitter comes out behind the fourth |
| Ticks.UnwrapMoves | puttysrc/timing.c:47-57 | A time within half the word range of two clocks is unwrapped the same way by both |
| TimerQueue.CompareIsDeadlineOrder | puttysrc/timing.c:47-87 | The comparator orders timers by unbounded deadline, then function and context, at any clock |
| TimerQueue.OrderSurvivesClock | puttysrc/timing.c:47-87 | A sorted set stays sorted when the clock moves, across the wrap and backwards, while deadlines stay within half the word range |
| TimerQueue.OrderNeedsReach | puttysrc/timing.c:47-57 | Without that condition it does not |
| TimerQueue.InsertSorted | puttysrc/timing.c:133-137 | Adding a timer keeps the set strictly sorted |
| TimerQueue.InsertAdds | puttysrc/timing.c:133-137 | A timer equal to a stored one changes nothing; any other is added, and nothing is lost |
| TimerQueue.DueExactly | puttysrc/timing.c:188-189 | The wrapping test holds if and only if the deadline has passed or the clock fell more than ten ticks behind the setting; for a timer asked for more than ten ticks in the past, if and only if both do |
| TimerQueue.StuckExactly | puttysrc/timing.c:188-189 | The deadlines that have passed without being due are exactly those of stuck timers: asked for more than ten ticks in the past, and set ten ticks from now at the latest |
| TimerQueue.NewTimerDue | puttysrc/timing.c:116-130 | The deadline is the one requested, at least one tick ahead, and not yet due |
| TimerQueue.PastRequestIsKept | puttysrc/timing.c:119-125 | For any ticks, negative ones too: the deadline is ahead of the clock if and only if ticks is not negative; the timer is at once due exactly from -10 to -1 |
| TimerQueue.PastNeverDue | puttysrc/timing.c:116-130 | A timer asked for more than ten ticks in the past is stuck at every reading until its deadline is half the word range ago |
| TimerState.ReadKeeps | puttysrc/timing.c:116-116 | A new clock reading keeps the invariant |
| TimerState.ScheduleKeeps | puttysrc/timing.c:109-149 | Scheduling keeps the invariant for any int ticks |
| TimerState.ScheduleStores | puttysrc/timing.c:109-137 | Scheduling stores a timer with this function, this context and exactly the deadline asked for, unless there is one; it stores no other and loses none; its context is live then unless it was not and there was such a timer |
| TimerState.ScheduleAhead | puttysrc/timing.c:109-149 | It keeps all stored timers asked for in the future if and only if ticks is not negative or such a timer is stored already |
| TimerState.ExpireKeeps | puttysrc/timing.c:211-222 | So does the expiry of a context |
| TimerState.DropHeadKeeps | puttysrc/timing.c:175-205 | So does taking the head off, fired or purged: every timer added is stored, fired or purged, exactly once |
| TimerState.DropHeadOrdered | puttysrc/timing.c:167-206 | Over a run with a clock that does not go back and no timer asked for in the past, deadlines fire in nondecreasing unbounded order |
| TimerState.LiveAtMeans | puttysrc/timing.c:211-222 | A context is live if and only if some event scheduled it and none after that expired it |
| TimerState.FiredWasScheduled | puttysrc/timing.c:175-205 | No callback ever runs for an expired context before that context is scheduled again |
| TimerState.HeadIsEarliest | puttysrc/timing.c:175-180 | The head of a sorted set has the earliest unbounded deadline |
| TimerState.PastBecomesHead | puttysrc/timing.c:109-149 | A request for more than ten ticks in the past and before all stored deadlines makes a live head that is stuck until its deadline is half the word range ago |
| TimerState.ScheduleDueCount | puttysrc/timing.c:116-137 | Scheduling adds to the timers that are due only when asked for one to ten ticks in the past; otherwise run_timers has a measure by which it ends |
| TimerSystem.NothingPast | puttysrc/timing.c:197-205 | If the head is not due, then no stored deadline has passed if and only if the head is not stuck |
| TimerSystem.TimerSystem.ScheduleTimer | puttysrc/timing.c:109-149 | For any int ticks the timer asked for is stored, the state becomes the scheduled one, the result is the deadline, the timer and ping invariants are kept, and the Qt timer, if it was armed for the head, is armed for the new head |
| TimerSystem.TimerSystem.ExpireTimerContext | puttysrc/timing.c:211-222 | The context goes, its timers stay stored, and the Qt timer stays armed for the head |
| TimerSystem.TimerSystem.Callback | puttysrc/timing.c:192-195 | The callback of the pinger's timer sends a ping if and only if it came for the deadline the pinger waits for; that of another client does all of what its script says, in order |
| TimerSystem.TimerSystem.Fire | puttysrc/timing.c:188-196 | The head that is due leaves the set, and its callback runs; at a clock that stands still fewer timers are due then |
| TimerSystem.TimerSystem.RunTimers | puttysrc/timing.c:167-206 | If true, next is the earliest stored deadline, and none before now is left if and only if the head is not stuck, as it never is if nothing was asked for in the past; if false, no timer is left; a live stuck head stops everything behind it; the callbacks called are exactly those of the timers logged as fired, in order, and as many pings have gone out as of them were awaited by the pinger, which is waiting again unless its interval is zero; it ends although callbacks schedule and expire at will, once the clock stands still and no callback asks for one to ten ticks in the past |
| TimerSystem.TimerSystem.TimerEvent | QtTimer.hpp:26-37 | The event is that of the one timer remembered, as the code asserts; afterwards a new one is armed for the head, if any timer is left, so no wake-up is lost; for a stuck head it is armed one tick ahead; a ping has gone out for every fired timer that the pinger awaited, and for no other |
| TimerSystem.QtTimer.StartTimerForTick | QtTimer.hpp:17-23 | The one Qt timer is armed for this tick, at least one tick ahead, and any other is killed |
| PingerRules.SoonerDeadline | puttysrc/pinger.c:28-45 | The wrapping comparison takes the earlier deadline, except that one before the setting of the pending ping counts as later than one after it |
| PingerRules.EarlierDeadline | puttysrc/pinger.c:28-45 | With neither deadline asked for in the past that is the earlier one in unbounded time |
| PingerRules.ScheduleOwn | puttysrc/pinger.c:28-45 | Scheduling a ping leaves a live timer with this function, this context and exactly the deadline next |
| PingerRules.DropHeadPing | puttysrc/pinger.c:17-26 | Taking a timer off the list can orphan a pending ping only if the timer is that ping's own |
| TimerSystem.TimerSystem.PingerSchedule | puttysrc/pinger.c:28-45 | For any interval, negative ones too: afterwards a ping is pending if and only if the interval is not zero, with its timer stored and the deadline that the comparison takes |
| TimerSystem.TimerSystem.PingerTimer | puttysrc/pinger.c:17-26 | A ping is sent if and only if the timer is that of the pending deadline, and the next one is scheduled then; otherwise nothing changes |
| TimerSystem.TimerSystem.PingerNew | puttysrc/pinger.c:47-57 | A new pinger, of any interval, has a ping pending if and only if the interval is not zero |
| TimerSystem.TimerSystem.PingerReconfig | puttysrc/pinger.c:59-66 | A new nonzero interval leaves next at the one of the old and new deadlines that the comparison takes, which is the earlier if nothing was asked for in the past; an unchanged one changes nothing |
| TimerSystem.TimerSystem.PingerFree | puttysrc/pinger.c:68-72 | The pinger's context expires with it, so by TimerState.FiredWasScheduled none of its timers fires |
| LdiscRules.CanonicalIsRle | puttysrc/ldisc.c:285-299 | A chunk list with positive sizes and different neighbours is the run-length encoding of the tags it stands for |
| LdiscRules.AppendCanonical | puttysrc/ldisc.c:269-299 | Appending keeps it so if and only if something is appended or the last chunk has that type |
| LdiscRules.AppendSound | puttysrc/ldisc.c:285-299 | After an empty last chunk the list stays sound, with no other chunk empty, if and only if what is appended has its type |
| LdiscRules.EmptySpecialThenData | puttysrc/ldisc.c:269-299 | An empty special string followed by data of another type puts an empty chunk at the head of a queue that is not empty |
| LdiscRules.AppendExpands | puttysrc/ldisc.c:285-299 | Appending adds the tags of the new bytes at the end |
| LdiscRules.ConsumeExpands | puttysrc/ldisc.c:187-204 | Consuming drops as many tags as bytes |
| LdiscRules.ConsumeCanonical | puttysrc/ldisc.c:187-204 | Consuming keeps the encoding canonical |
| LdiscRules.AccountGrows | puttysrc/ldisc.c:307-390 | If a pass consumes what it processed, output followed by the queue still accounts for everything submitted |
| LdiscRules.TraceRoute | puttysrc/ldisc.c:322-347 | A batch fed in part to a userpass editor stands for those events followed by the translation of the rest |
| LdiscRules.KeyedOut | puttysrc/ldisc.c:165-185 | What comes out for a byte depends on its call alone: a special string, typed, or pasted; with the code of each telnet key |
| Ldisc.Ldisc.Consume | puttysrc/ldisc.c:187-204 | The linked list and the byte queue lose exactly the first bytes and their tags |
| Ldisc.Ldisc.AppendChunk | puttysrc/ldisc.c:285-299 | The linked list becomes Append of the old one, with the tail pointer at the last node |
| Ldisc.Ldisc.Send | puttysrc/ldisc.c:252-305 | Everything sent is submitted with its type, in order, and the account stays straight; once the queue is empty every byte has come out as what it means: to an editor with the dedicated flag of a special string or a pasted Return, under telnet as the meaning of the key, otherwise as it is; if the backend accepts and no userpass editor is there, the queue is empty at the end; a canonical list stays so if and only if what was sent was not an empty special string, or the list ended in that type |
| Ldisc.Ldisc.SendTelnetKey | puttysrc/ldisc.c:354-381 | The switch with its fall-through sends what the telnet key means |
| Ldisc.Ldisc.Pass | puttysrc/ldisc.c:307-390 | What one pass puts out is the translation of the bytes it processed; how many it feeds, processes and consumes; these last two agree if and only if it stops, fed no userpass editor, edits locally, or sends dedicated telnet input |
| Ldisc.SentAndQueued | puttysrc/ldisc.c:322-387 | One byte taken by a userpass editor while the backend says yes: the second byte is sent and is still queued |
| Ldisc.Ldisc.StuckPass | puttysrc/ldisc.c:315-387 | With an empty chunk at the head a pass changes nothing, so the loop goes on until the backend says no |
| Ldisc.Ldisc.InputQueueCallback | puttysrc/ldisc.c:307-390 | Under the sendok policy every run conserves the input: output followed by the queue is everything submitted; it ends if the list is sound or the backend says no at some point, and leaves something queued only under back-pressure |
| Ldisc.Ldisc.ListIsRle | puttysrc/ldisc.c:187-204 | A canonical list, as every send but that of an empty special string leaves it, is the run-length encoding of the queued tags and covers the queue |
| CallbackQueue.KeepFacts | puttysrc/callback.c:44-69 | Deletion by context keeps exactly the others, in order |
| CallbackQueue.KeepIsOthers | puttysrc/callback.c:44-69 | The filtered list shows the targets whose fields do not have the context |
| CallbackQueue.InOrderKeep | puttysrc/callback.c:44-69 | First-in first-out order survives deletion |
| CallbackQueue.FlagsMeaning | puttysrc/callback.c:29-42 | An idempotent callback waits once if its flag is set and it was not deleted, else not at all |
| CallbackQueue.FlagsDelete | puttysrc/callback.c:44-69 | Deletion keeps the flags right, except that the deleted ones keep theirs |
| CallbackQueue.CallbackQueue.QueueToplevel | puttysrc/callback.c:72-100 | The callback is queued last, and a drain is posted if the queue was empty and nothing runs |
| CallbackQueue.CallbackQueue.QueueIdempotent | puttysrc/callback.c:36-42 | It is queued last unless its flag is set, when nothing changes; then it does not wait if and only if its run was deleted |
| CallbackQueue.QueueDeleteQueue | puttysrc/callback.c:29-69 | Queued, deleted with its context and queued again: the flag is set and nothing waits |
| CallbackQueue.CallbackQueue.DeleteForContext | puttysrc/callback.c:44-69 | Relinking in place leaves the entries with another context, and idempotent ones that neither are nor have this context, in order, with the right head and tail; what was deleted neither waits, nor runs, nor has run |
| CallbackQueue.CallbackQueue.RunScript | puttysrc/callback.c:36-100 | A callback's calls, one after the other, do to the list of waiting targets and flags what each call means |
| CallbackQueue.CallbackQueue.RunOne | puttysrc/callback.c:102-128 | The head runs, with its flag cleared before, and nothing else runs; the waiting targets and flags are then those that its calls leave; order and flags stay right; what is deleted stays deleted, and no callback of a deleted run is ever the head |
| CallbackQueue.CallbackQueue.Drain | GuiMain.cpp:19-21 | The posted loop empties the queue once callbacks stop adding to it, in order, and posts nothing; nothing it runs was deleted, and an idempotent callback whose run was deleted is never run again |
| SettingsMap.ScanEntry | puttysrc/settings.c:222-240 | Reading one printed entry gives back its key and value, whatever characters they hold |
| SettingsMap.ParsePrint | puttysrc/settings.c:203-325 | Reading what was printed gives back the entries in order |
| SettingsMap.PrintReadable | puttysrc/settings.c:271-325 | Nothing printed ends in a lone backslash, so the parser may be given it |
| SettingsMap.DynamicStored | puttysrc/settings.c:246-300 | A dynamic forwarding is stored under a D for its first L and without a value, and loaded back the other way; no other entry is translated |
| SettingsMap.ReloadEntry | puttysrc/settings.c:242-300 | A port forwarding comes back if and only if, being dynamic, it has an L and no D before it, and otherwise no D |
| SettingsMap.MapRoundTrip | puttysrc/settings.c:203-325 | Every map of NUL-free strings comes back when values are written |
| SettingsMap.ForwardingRoundTrip | puttysrc/settings.c:203-325 | Port forwardings come back if and only if each of them does by itself |
| SettingsMap.NamesRoundTrip | puttysrc/settings.c:203-325 | When only names are written they come back if and only if none is empty |
| SettingsStore.ScanInPlace | puttysrc/settings.c:222-240 | The in-place parse computes the pure split and unescape, and never overwrites an unread byte |
| SettingsStore.StrConf.Gppmap | puttysrc/settings.c:203-265 | The conf key holds the parsed entries of the stored string, and nothing of what it held before |
| SettingsStore.Wmap | puttysrc/settings.c:271-325 | The strbuf holds the printed entries, with dynamic forwardings in their old form |
| SettingsStore.SaveAndLoad | puttysrc/settings.c:203-325 | Through both loops: the map comes back, for port forwardings if and only if each is reloadable |
| PrefsRules.StepGood | puttysrc/settings.c:390-428 | One insertion keeps what is settled: distinct values, the named order, and the side of every defaulted value whose anchor is there |
| PrefsRules.PassProgress | puttysrc/settings.c:390-428 | While a value is missing a pass over the table adds one: the completion ends |
| PrefsRules.Completion | puttysrc/settings.c:351-429 | The result is a permutation of the mapped values, keeps the named ones in order, and has each defaulted value on the where side of its anchor |
| PrefsRules.NamedMeans | puttysrc/settings.c:363-380 | Exactly the known words are named, in the order of their first occurrence |
| PrefsRules.PrefsRoundTrip | puttysrc/settings.c:351-465 | A complete list written and read back is the same list |
| PrefsConf.IntConf.Shift | puttysrc/settings.c:417-425 | The in-place shift leaves the conf key holding the list with the value inserted, and no other position changed |
| PrefsConf.IntConf.GprefsFromStr | puttysrc/settings.c:351-429 | Whatever the conf key held, it then holds the completion of the named values |
| PrefsConf.IntConf.Wprefs | puttysrc/settings.c:449-465 | The string written is the comma-separated names of the stored list |
| PrefsConf.IntConf.WriteAndRead | puttysrc/settings.c:351-465 | Written by one loop and read by the other into another conf, whatever that holds, a complete stored list comes back |
| PrefsConf.KeyToVal | puttysrc/settings.c:327-334 | The value of the first row with this key; -1 if there is none |
| PrefsConf.ValToKey | puttysrc/settings.c:336-343 | The key of the first row with this value, or none |
| PrefsTables.CipherTable | puttysrc/settings.c:17-26 | The cipher table has distinct values below 32 and acyclic anchors, so all of this holds for it |
| PrefsTables.KexTable | puttysrc/settings.c:31-53 | So has the key exchange table |
| PrefsTables.HkTable | puttysrc/settings.c:55-62 | So has the host key table |
| HexDumpRules.CursorIsLookup | puttysrc/logging.c:318-328 | With areas in increasing order the moving cursor agrees with a plain lookup of the area that covers the offset |
| HexDumpRules.LinesAccount | puttysrc/logging.c:315-378 | The lines cover the packet in offset order without gaps; an omitted stretch is one line; rows end only at a multiple of 16, before an omitted byte, or with the packet |
| HexDumpRules.LineOfOffset | puttysrc/logging.c:315-378 | Every offset is in exactly one line |
| HexDumpRules.RowShowsByte | puttysrc/logging.c:338-360 | In its row, at its column, an emitted byte reads back as its value, with its character on the right if it is printable and a dot if not, and a blanked one as XX |
| HexDumpRules.RowShowsAddress | puttysrc/logging.c:338-342 | A row starts with digits that read back as the address of the block of 16 its bytes are in |
| HexDumpRules.HexBack | puttysrc/logging.c:340-342 | What %08x prints has eight digits or more and reads back as the number |
| HexDumpRules.OmittedShowsCount | puttysrc/logging.c:332-336 | A line for omitted bytes carries a decimal number that reads back as how many it accounts for |
| HexDump.Dumper.PutByte | puttysrc/logging.c:344-360 | The row buffer, written in place, then shows one byte more and is otherwise as it was |
| HexDump.Dumper.FlushRow | puttysrc/logging.c:364-371 | What goes out is the text of the row up to its last byte |
| HexDump.Dumper.DumpBody | puttysrc/logging.c:311-380 | The loop writes exactly the lines of the packet, for any areas in increasing order |
| LogStream.StreamedWrite | puttysrc/logging.c:46-52 | A short write leaves the log a beginning of what was submitted |
| LogStream.LogContext.LogWrite | puttysrc/logging.c:35-56 | The log is always a beginning of the old contents kept, the header and all submitted data in call order, and all of it while the log is open; it is opened by the first write in the mode that settings and user ask for, and stays open as long as no write loses anything; a cancel or a refused open leaves the file alone; while the answer is awaited everything is queued and nothing written; after an error nothing more is written |
| LogStream.LogContext.LogFopen | puttysrc/logging.c:158-194 | A second call changes nothing; the log is opened to overwrite if that loses no data or is set, to append if that is set, as the user answers otherwise; a late answer leaves it opening |
| LogStream.LogContext.LogFopenCallback | puttysrc/logging.c:90-151 | However it ends, the queue is empty; a cancel or a refused open leaves the file alone and ends in the error state; otherwise the log is opened in the mode answered, and if no write loses anything it stays open and holds header and all submitted data |
| LogStream.LogContext.Drain | puttysrc/logging.c:142-150 | The queue goes out in order, whatever pieces it is shown in, and an error in the middle leaves a beginning of it |
| LogStream.LogContext.LogTraffic | puttysrc/logging.c:208-214 | A character of the logged kind is submitted, any other leaves the log alone |
| SessionPaths.SplitJoin | QtSessionTreeModel.cpp:16-18 | The components of a name hold no slash and join to the name again |
| SessionPaths.JoinSplit | QtSessionTreeModel.cpp:16-18 | Any list of components without slashes is what its join splits into |
| SessionPaths.PrefixStep | QtSessionTreeModel.cpp:22-32 | Each step of the folder loop extends the path by one component, below the path before |
| SessionPaths.PrefixIsJoin | QtSessionTreeModel.cpp:22-32 | The path after so many steps is the join of so many components |
| SessionPaths.AllPrefixesMeans | QtSessionTreeModel.cpp:13-36 | A path is wanted if and only if it is a prefix of a configured name |
| SessionTree.SessionTree.Insert | GuiSettingsWindow.cpp:1082-1096 | A new item that fits keeps the tree a trie: one item a path, hanging once in its folder |
| SessionTree.GrownMore | GuiSettingsWindow.cpp:1068-1100 | Whatever the name, a new item keeps this: every item has the text and the folder that its full name asks for, and of two items of one name in a folder the later is in the index |
| SessionTree.SessionTree.AddName | GuiSettingsWindow.cpp:1068-1100 | For any name: a trie stays one if and only if the name does not begin with a slash and, if it ends with one, is a path already or becomes a new one; the paths it adds; a tree once broken stays so; a final slash can make two items of a path, and "/" takes the place of the root in the index |
| SessionTree.SessionTree.LoadSessionNames | GuiSettingsWindow.cpp:1064-1101 | The tree has exactly one item for each path that the names stand for, and every path of the index finds its own item by the lookup, both if and only if each name, in their order, does no harm |
| SessionPaths.ProperLoadable | GuiSettingsWindow.cpp:1068-1074 | Names that neither begin nor end with a slash may be loaded in any order, and stand for their prefixes |
| SessionTree.SessionTree.FindIndexForSessionName | QtSessionTreeModel.cpp:43-64 | Lookup takes the first child of each text on the way down, in any tree; in a trie it finds the item of the path if the path is there, and nothing otherwise |
| SessionTree.SessionTree.LookupInTrie | QtSessionTreeModel.cpp:43-64 | In a trie the way down by texts ends at the item of the path, or nowhere if the path is not in the index |
| SessionTree.SessionTree.FoundIsIndexed | QtSessionTreeModel.cpp:43-64 | In the tree of any names, if every path is found then every item is the one of its path: of two items of one name in a folder the lookup finds the first and the index has the last |
| SessionTree.SessionTree.SlashNotFound | QtSessionTreeModel.cpp:43-64 | While the root is in the index, looking a name that begins with a slash up does not give the item that has it |
| SessionTree.SessionTree.LeadingSlashLost | QtSessionTreeModel.cpp:43-64 | While no top item has the empty text, no name that begins with a slash is found |
| SessionTree.SessionTree.SlashInTheWay | GuiSettingsWindow.cpp:1068-1100 | With the names "/a", "a" and "a/b", looking up "a" gives the item of "/a", and looking up "a/b" gives nothing |
| SessionTree.SessionTree.LoadAndFind | GuiCompactSettingsWindow.cpp:161-161 | Built and searched: every path finds its item if and only if the names may be loaded, and then exactly their paths are found; among names without empty components none that begins with a slash is |
| SessionPaths.SlashNames | GuiSettingsWindow.cpp:1070-1075 | "/a" and "/" may not be loaded; "/a" is one of the names that are then not found |
| SessionTree.SessionTree.ReachedIsIndexed | GuiSettingsWindow.cpp:1064-1101 | Every item that can be reached from the root is the one item of its path |
| SessionTree.SessionTree.IndexedIsReached | GuiSettingsWindow.cpp:1064-1101 | The item of every path can be reached from the root |
| SessionTree.SessionTree.FullNameIsPath | QtSessionTreeItem.hpp:40-46 | The name composed by climbing to the root is the path of the item |
| SessionRename.MovedExactly | GuiSettingsWindow.cpp:1189-1203 | For any list of moves, each to another name: all sessions reach their new names with their settings, whatever these are, if and only if the old names are distinct, the new names are, and no new name is an old name still to be moved |
| SessionRename.OthersExactly | GuiSettingsWindow.cpp:1198-1202 | Every session that is not moved stays as it was, whatever it holds, if and only if no new name belongs to one of them |
| SessionRename.RenameMeans | GuiSettingsWindow.cpp:1189-1203 | For any new name of an item: all sessions below move with their settings, whatever these are, if and only if that holds; to an unrelated path, with texts without slashes, if and only if siblings have different texts; the old names are then gone in any case; the others are untouched if and only if none has one of the new names |
| SessionRename.NamesDistinct | GuiSettingsWindow.cpp:1189-1203 | In such a tree no two items have the same full name |
| SessionRename.TidyExactly | GuiSettingsWindow.cpp:1189-1203 | With texts without slashes, all full names below an item are different if and only if siblings have different texts |
| SessionRename.SlashLosesSession | GuiSettingsWindow.cpp:1198-1202 | A new name with a slash can destroy a session below |
| SessionRename.DragLosesSession | GuiTreeWidget.cpp:7-11 | Dragging a session into a folder that has one of the same name destroys the one that was there |
| SessionRename.TwiceLosesSession | GuiSettingsWindow.cpp:1189-1203 | Moving a folder with two items of one text destroys the session they stand for |
| SessionRename.SessionList.AdjustHierarchy | GuiSettingsWindow.cpp:1189-1203 | All items below get their new full names, and the configurations are moved top down; if the name has not changed, nothing does |
| SessionRename.SessionList.SlotSessnameHierarchyChanged | GuiSettingsWindow.cpp:1205-1209 | After a drop: the names below are new, the sessions below have their settings under the exact conditions above, and the others stay if no new name is theirs |

## Left out

- Widgets, painting, menus, key translation, dialogs, fonts, colours, the network, Pageant, Unicode tables and configuration files in XML: no state with an invariant of this kind.
- The word of the tick count is 32 bits wide; contexts and functions are numbered; a context is not used again after it expired, and no stored timer has a new pinger's address.
- TimerSystem.TimerSystem.RunTimers: stored times are within half the word range of the readings; a stuck timer leaves that range when its deadline is 24 days ago.
- TimerSystem.TimerSystem.PingerReconfig: which deadline is kept, while the pending ping was set less than half the word range ago.
- run_timers takes the time from its own clock reading, as timing.c:173 does, although putty.h:2647-2651 asks front ends to pass it.
- Qt's millisecond clock and the tick count are taken to agree, and interval times 1000 not to overflow.
- Ldisc.Ldisc.InputQueueCallback: assumes the policy of putty.h:765-770, that no backend says yes while a userpass editor takes the input; Ldisc.Ldisc.Pass does not.
- Ldisc.Ldisc.Send: where the source would go round for ever, the backend is taken to say no in some later pass.
- Line discipline: option changes in the middle, re-entry from the backend, ldisc_free, ldisc_check_sendok (it only queues the callback again), and what the line editor does with its input.
- Draining callbacks from a nested event loop.
- Splitter sizes, focus, navigation between panes, refusals to close (`userRequest` false), window-to-window drops, and an alternation of orientations, which the code does not keep.
- SettingsStore.StrConf.Gppmap: the stored string has no lone backslash at its end, after which the parser reads past its buffer; no string written by wmap has one.
- SettingsMap.NamesRoundTrip: an empty key is enumerated first, as conf's order has it.
- The other readers of the settings file, and the byte order of the conf tree.
- HexDumpRules.RowShowsAddress: addresses of up to ten digits; longer ones run into the columns of the first bytes, which overwrite them.
- HexDump.Dumper.DumpBody: the header line of a packet is left out.
- LogStream.LogContext.LogWrite: the settings do not change while a log is in use, no user dialog re-enters the log, and buffering by stdio is not modelled.
- The substitution of codes in the log file name, and the squashing of newlines in event log lines.
- SessionTree.SessionTree.FullNameIsPath: items are heap objects that never move, as those of loadSessionNames are; QtSessionTreeModel keeps its items by value in lists (QtSessionTreeItem.hpp:49), whose growth moves them, so its index and parent pointers can dangle.
- SessionRename.SessionList.AdjustHierarchy: starts from items that carry the names of one old path, as after one move or one rename; saving and copying sessions are left out.
- Deleting sessions from the most-recently-used list.
