# KestrelOS in Dafny

A model of the state machines, caches and graph walks at the heart of KestrelOS,
with proofs of what they are for. Each module takes the form of the source it
models: a class with loops where the source updates things in place, proved
against pure functions whose properties are proved as lemmas.

- `Screen`, `Sequences`, `Console`: the ANSI console. What control sequences do is
  stated over the bytes; the framebuffer backend with dirty ranges, a lazily moved
  cursor and shifted tiles is always a full repaint.
- `LineOutput`, `Edits`, `EditLaws`, `LineEditor`, `EditorOnConsole`: the shell's
  multi-row line editor, verified through the console it prints on.
- `Units`, `Ordering`, `Enforcement`, `Supervisor`, `CrashLoop`, `Operations`: the
  service supervisor, over every run and as its operator sees it.
- `Devices`: device and driver registries and the bind rule.
- `BlockStack`: byte-granular device files over blocks over chunked ATA commands.
- `ModuleLoader`: the browser's ES module loader.
- `Relocations`, `ElfLinker`: symbol lookup and relocation; breadth-first dynamic
  linking and segment placement.
- `Grammar`, `CalcParser`, `Calc`: the overflow-exact expression evaluator.
- `Transcript`, `TerminalSequences`, `Terminal`: the terminal window's ring of lines
  and its control sequences.
- `PackageDb`, `Packages`: the package database codec and the package manager.
- `Paths`: the two path canonicalisers.
- `Counting`, `Bytes`, `Characters`, `Palette`, `Ranges`, `Buffers`, `Numerals`,
  `Options`: shared definitions; `Counting` holds the graph and counting arguments.

What is outside is a parameter, so that every theorem holds for every behaviour of
it. Processes, the writes of the package manager, the faults of a drive and the
memory manager's answers to a relocation are functions of how often they were asked,
so they may answer differently each time;
deaths and the clock come with each event. Fetches, module sources, the script
engine, driver matches and probes, and unlinks give the same answer to the same
question, and a request that ends at a URL is taken to end there again when it
starts there. C strings are sequences without NUL, except where the source works
in a fixed buffer; then the buffer is an array and holds the NUL. Locked functions
are single steps.

`dafny verify dfyconfig.toml` checks the whole project.

## Where the code falls short of a natural claim

Each of these has inputs on which the claim fails and the exact condition under
which it holds.

- Every file has one owner. The conflict check does not see a package whose name
  starts with a dot or whose list is above 1 MiB (`HiddenInputs`), so a second
  package may take its files (`SecondOwner`). A list cut short on disk can end in a
  shorter path that belongs to another package (`TornOwner`). `RegisterSingle`,
  `TornRecord` and `WroteSingle` have the exact conditions, and `WriteOut` and
  `Install` carry them.
- Removing or replacing a package deletes no file that another one lists. It may
  delete a file of a package that is not seen (`RemovedFromUnder`); `RemoveExact`
  and `WroteKept` say exactly when, and `HiddenLossSteady` what to look for before.
- Listed files are present. A forced reinstall that prunes a file and then cannot
  write its record leaves the old list naming it (`LostFile`), and a list cut inside
  its last path names a file that need not exist, on a first install too
  (`TornLost`). `WroteKept` has the exact condition over every outcome, and
  `Session` concludes that listed files are present as long as it was never met.
- Linked objects do not overlap. The page cap counts pages, not extent, so a
  library with a page far above its base is loaded on top of the next one
  (`OverlappingLoad`). `KeepsOutExact` has the exact condition on an image.
- A device has the first driver that claims it. Unregistering a driver does not
  offer its devices to the others (`Stranded`); `DriverUnregister` has the exact
  condition, and `ReplayBoth` shows that histories without such a step agree.
- The shell normalises a path. It keeps at most 64 parts (`PartLimitBites`), which
  is harmless exactly when the path comes back to the root in time (`CapExact`). It
  reads 511 bytes of the path, so no canonical path of 512 or more survives
  (`LongPathLost`); `BufferCut` has the exact condition for every longer path.
- An import means the same module throughout a page. The URL of an inline script is
  a name that references can reach, so a reference may fail first and mean the
  script later (`MovingTarget`). `StaticTarget` and `StaticImports` have the exact
  condition on a reference and on a module; the theorems are about the graph each
  module saw.
- The 28-bit registers carry an address exactly up to 2^28-1 (`RegistersRoundTrip`).

## Model

| member | source | states |
|---|---|---|
| Screen.Run | kernel/console.c:499-503 | A byte stream keeps the grid its size and the caret inside it, whatever the bytes are |
| Screen.RunConcat | kernel/console.c:499-503 | The meaning of a stream does not depend on how it is cut into writes |
| Sequences.RunNumbers | kernel/console.c:422-437 | The parser after numbers between semicolons: the first four of them, each at most 9999 |
| Sequences.RunAny | kernel/console.c:401-453 | A control sequence acts as its final byte with its numbers, whatever was written before |
| Sequences.Address | kernel/console.c:356-364 | H and f put the caret on the row and column they name, counted from one and as far as the screen goes, and change nothing else |
| Sequences.Home | kernel/console.c:356-364 | Without numbers they go to the top left corner |
| Sequences.AddressRow | kernel/console.c:356-364 | With a row alone they go to its first column |
| Sequences.FifthNumber | kernel/console.c:422-437 | A fifth number is ignored and a fifth semicolon ends the sequence without effect |
| Sequences.Moves | kernel/console.c:372-391 | A, B, C and D move up, down, right and left by their number, at least one, and stop at the edge |
| Sequences.MovesBack | kernel/console.c:372-391 | A move inside the screen is undone by the opposite one |
| Sequences.ClearsAll | kernel/console.c:352-355 | 2J blanks every cell in the current colour and homes the caret; J with another number does nothing |
| Sequences.ErasesRest | kernel/console.c:365-368 | K blanks the row of the caret from the caret on and nothing else |
| Sequences.Visibility | kernel/console.c:339-349 | ?25l and ?25h change visibility alone; other private sequences do nothing |
| Sequences.Swallowed | kernel/console.c:392-420 | Other final bytes and other escapes do nothing |
| Sequences.Colours | kernel/console.c:306-333 | What each colour number does to the pen, with red and blue exchanged in the palette; nothing else changes |
| Sequences.ColourList | kernel/console.c:306-333 | A list of colour numbers is one after the other, and none is zero |
| Sequences.Prints | kernel/console.c:484-490 | A character goes into the cell of the caret in the colour of the pen, no other cell changes, and the caret moves on |
| Sequences.Wraps | kernel/console.c:484-490 | In the last column it goes on to the next row as a line feed would |
| Sequences.LineFeeds | kernel/console.c:464-467 | A line feed goes to the start of the next row; from the last one every row moves up and a blank one appears |
| Sequences.Backspace | kernel/console.c:471-476 | A backspace goes back one column and blanks that cell, and stops at the first |
| Sequences.Unprints | kernel/console.c:471-490 | After a character it leaves a blank under the caret the character started from |
| Sequences.Tabs | kernel/console.c:468-483 | A tab goes to the next multiple of eight or as a line feed; a carriage return to the first column |
| Console.Console.Write | kernel/console.c:499-503 | After any byte stream the shadow buffer and the device are both a full repaint of the screen the stream means: every tile is its character in its two colours, swapped exactly under a visible caret |
| Console.Console.PutC | kernel/console.c:455-497 | The same for one byte: the view becomes `Screen.Putc` of the old view and everything is painted, nothing is left dirty |
| Console.Console.constructor | kernel/console.c:224-258 | Dimensions are clamped to 1..320 by 1..90 and the console starts blank and fully painted |
| Console.Console.Mark | kernel/console.c:78-86 | A marked cell is dirty, nothing dirty becomes clean, the range of its row is widened just far enough, other rows keep theirs, and cells outside the grid are ignored |
| Console.Console.PaintCell | kernel/console.c:96-108 | Exactly one tile changes, to the look of its cell with the caret considered |
| Console.Console.SettleRow | kernel/console.c:112-126 | One row: the dirty span and nothing else is painted, and pushed when asked; the row is clean afterwards |
| Console.Console.PaintDirty | kernel/console.c:112-126 | Every dirty cell is painted, every clean one keeps its tile, and the device receives exactly the dirty spans when blitting |
| Console.Console.Sync | kernel/console.c:129-154 | From any coherent cache, lazily moved cursor included, to a full repaint of the same view |
| Console.Console.CellPut | kernel/console.c:158-171 | Changes one cell of the grid, keeps the cache coherent and ignores positions outside |
| Console.Console.Clear | kernel/console.c:204-222 | A blank screen in the current colour with the caret home, painted |
| Console.Console.LiftBlock | kernel/console.c:260-296 | Before tiles are shifted, every tile shows its cell without a cursor |
| Console.Console.Scroll | kernel/console.c:260-296 | Shifting cells and painted tiles by a row is coherent with the scrolled grid |
| Console.Console.EscSgr | kernel/console.c:306-333 | The colour after a whole parameter list is the fold of the single parameters |
| Console.Console.EscFinal | kernel/console.c:335-398 | A control sequence acts as the final byte means, private cursor sequences included, and leaves everything painted |
| Console.Console.EscConsume | kernel/console.c:401-453 | The parser swallows exactly the bytes of escape sequences, and what it swallows has its meaning |
| LineOutput.RunSeek | apps/sh.c:276-290 | The bytes of line_seek, run through the console, move the caret to the offset and change no cell |
| LineOutput.RunText | kernel/console.c:455-497 | Printing text fills consecutive cells from the caret, scrolling as often as it must; every other cell is kept |
| LineOutput.RunRedraw | apps/sh.c:294-310 | The bytes of line_redraw, run on any screen, show prompt and buffer from the row of the prompt with the caret on its offset; the old tail is blanked and every other cell kept |
| Edits.After | apps/sh.c:473-623 | The line any keys produce stays within the buffer, with caret and history position in range |
| LineEditor.EchoShown | apps/sh.c:604-613 | Echoing at the end keeps the line shown and every cell above it, moved only by scrolling |
| LineEditor.RedrawShown | apps/sh.c:294-310 | So does a full repaint, which leaves nothing of the old line behind the new one |
| LineEditor.Editor.LineInsert | apps/sh.c:313-331 | The buffer becomes the old line with as much as fits inserted at the caret |
| LineEditor.Editor.LineDeleteAt | apps/sh.c:333-342 | The buffer becomes the old line without one character |
| LineEditor.Editor.SeekCaret | apps/sh.c:276-290 | The caret is on its character again, and line_row is its row |
| LineEditor.Editor.Redraw | apps/sh.c:294-310 | Whatever the buffer was when last painted, the line is on screen again, line_row and line_rows are (plen+cur)/80 and (plen+len)/80 |
| LineEditor.Editor.Append | apps/sh.c:604-613 | The one-character echo has the effect of a full insert |
| LineEditor.Editor.Complete | apps/sh.c:386-467 | Insert, list and redraw for a given search result; several candidates are listed below the last row of the line |
| LineEditor.Editor.History | apps/sh.c:567-590 | Recall as the specification has it; the screen follows |
| EditLaws.Upwards | apps/sh.c:567-590 | Going up n times shows the n-th newest line, as much as fits, and keeps the typed one |
| EditLaws.Downwards | apps/sh.c:567-590 | Coming down again shows the same lines in the opposite order and last the typed one |
| EditLaws.TypedLineBack | apps/sh.c:567-590 | After n times up and n times down the typed line is back if and only if it fits the buffer it is kept in |
| EditLaws.Oldest | apps/sh.c:570-572 | Going up stops at the oldest line |
| LineEditor.Editor.Key | apps/sh.c:486-622 | Any key: the buffer follows the specification; everything sent so far shows prompt and new line with the caret on its character, with nothing above the prompt touched and nothing behind the line but blanks and what was there before; enter takes the line and ctrl-C drops it, both leaving the caret below the whole line, and exactly the ending keys end it |
| EditLaws.TypedText | apps/sh.c:600-620 | Typing a text puts it at the caret, as much of it as there is room for |
| EditLaws.CompletionTypes | apps/sh.c:386-466 | Completion is typing what is missing of the name |
| EditLaws.TypedThenErased | apps/sh.c:522-529 | A backspace takes back the character just typed |
| EditLaws.LeftThenDelete | apps/sh.c:509-529 | A backspace is a delete one place to the left; neither does anything at its end of the line |
| EditLaws.LeftAndRight | apps/sh.c:553-566 | Left and right undo each other and stop at the ends |
| EditLaws.HomeAndEnd | apps/sh.c:543-552 | Home and end are as far left and right as the caret goes |
| EditLaws.Kills | apps/sh.c:530-542 | Ctrl-K deletes to the end of the line, and ctrl-U is that from its start |
| EditLaws.Ignored | apps/sh.c:598-601 | Other control and function keys leave the line alone |
| LineEditor.Editor.ReadLine | apps/sh.c:473-623 | Any key sequence: result and stopping point are those of the specification, and while editing the line is on screen |
| EditLaws.TypeLine | apps/sh.c:473-623 | Typing a text that fits into an empty line and pressing enter reads that text |
| LineEditor.Editor.constructor | apps/sh.c:473-485 | The prompt is printed from column 0 and an empty line is shown |
| EditorOnConsole.Show | apps/sh.c:266-310 | End to end: the editor output through the framebuffer console leaves prompt and line on the device, each character in its colours and swapped under the caret |
| Units.FindUnit | apps/init.c:313-321 | The first unit of a name, or none |
| Ordering.DepPlaced | apps/init.c:628-653 | One dependency name: numbered or not, and a requirement that stands for no other service fails the unit |
| Ordering.DepsPlaced | apps/init.c:628-653 | True exactly when every name that stands for another service has a number; a missing requirement fails the unit |
| Ordering.PlaceAll | apps/init.c:658-692 | The fixpoint ends with every unnumbered service blocked by an unnumbered one |
| Ordering.UnplacedReachCycles | apps/init.c:658-692 | At the fixpoint a service has no number exactly when a dependency cycle can be reached from it |
| Ordering.OrderServices | apps/init.c:658-692 | Numbers are a bijection onto 0..k-1, placed services follow all their dependencies, and a service fails exactly when it reaches a cycle or misses a requirement |
| Supervisor.Supervisor.UnitSpawn | apps/init.c:777-860 | The whole new state of a unit for every outcome of exec, spawn and readiness; callable only with every requirement satisfied |
| Operations.Attempt | apps/init.c:777-860 | A unit runs as the process that was started if it does not have to report ready or does, and otherwise has failed without one; flags are cleared and crash bookkeeping is kept |
| Supervisor.Supervisor.EnsureRequirements | apps/init.c:744-775 | Success means all requirements are satisfied; guards and settled units are left alone; with nothing missing nothing changes; what can be started is |
| Supervisor.Supervisor.UnitStart | apps/init.c:862-880 | Terminates on every requires= graph and restores every guard; only the unit and what it requires, directly or not, is touched; a unit is up, failed or disabled afterwards, is spawned if nothing is missing and fails if something still is; one whose requirements can be ranked and started ends up running, and starting any other harms no such plan; no member of an unsatisfied requires= cycle is ever started |
| Supervisor.MetStarted | apps/init.c:744-775 | Starting a unit whose requirements are met starts no member of a stuck set and leaves stuck sets stuck |
| Supervisor.Supervisor.UnitDied | apps/init.c:910-981 | Crash bookkeeping of the dead unit alone, or the pending operator restart from a clean slate, launched if nothing is missing |
| Supervisor.Supervisor.ReapChildren | apps/init.c:984-998 | The crash bookkeeping of every unit without a pending restart is that of the deaths logged for it, whatever is restarted meanwhile; apart from what pending restarts pull in, each reported death is bookkept and logged and nothing else changes; failed units without a process stay failed |
| Supervisor.Supervisor.RunBackoff | apps/init.c:1000-1008 | Nothing that was due is left waiting, only what is due and what that requires is touched, crash bookkeeping is kept, and no failed unit is revived |
| Supervisor.Supervisor.EnforceDependencies | apps/init.c:1084-1120 | One pass is exactly the sweep of the specification, restarts nothing, revives no failed unit, and signals exactly the units it drops that have a process |
| Enforcement.SweepProgress | apps/init.c:1084-1120 | A pass that drops nobody leaves nobody to drop |
| Enforcement.Stabilises | apps/init.c:1084-1120 | As many passes as units reach a fixpoint with no active unit missing a requirement |
| Enforcement.EnforcementIsExact | apps/init.c:1070-1120 | The units dropped in the end are exactly those with a requires= chain of active units to an unsatisfied one; all others are untouched |
| CrashLoop.CrashSchedule | apps/init.c:910-981 | In one window, whatever other deaths it also holds, the first four crashes are restarted 0, 1000, 2000 and 5000 ms after the death and the fifth fails the unit |
| CrashLoop.AtMostFourRestarts | apps/init.c:910-981 | One window, whatever other deaths it also holds, admits at most four crash restarts |
| CrashLoop.DeathConcludes | apps/init.c:910-981 | What any death leads to: only a unit that restarts by itself is to be restarted, one told to stop is stopped, one stopped for a lost requirement has failed, any other has exited or is disabled |
| Supervisor.LivedOn | apps/init.c:910-981 | Histories compose: what a unit lived through in two stretches, one after the other, is a chain of instances with the crash bookkeeping handed on |
| CrashLoop.LivedOnSchedule | apps/init.c:910-1008 | Whatever a unit lived through, every failure window in it follows the schedule |
| CrashLoop.WindowRecorded | apps/init.c:910-981 | The bookkeeping of a unit names the opening and the crash count of a window of what it lived through; so unless a window was open before, every crash is in one |
| CrashLoop.WatchRun | apps/init.c:910-1213 | Any run of the supervisor: for each unit that no command is for and that had no restart pending, every logged death has its right outcome, and every failure window among them, other deaths included, has at most four crash restarts, 0, 1000, 2000 and 5000 ms after the death, and the fifth crash fails it; and unless a window was open at the start every logged crash is in one |
| Supervisor.Supervisor.UnitStop | apps/init.c:1012-1017 | Only marks the unit and signals it if it has a process |
| Supervisor.Supervisor.Command | apps/init.c:1122-1213 | start, stop, restart and reset-failed: the whole new state, or for a start what starting promises, and whom it signals |
| Operations.StopStays | apps/init.c:937-943 | A running unit that is told to stop and dies is stopped and stays so through the restarts that are due, unless another unit that requires it is restarted |
| Operations.StopIdle | apps/init.c:1122-1213 | A unit that is not up is stopped at once without a signal and a restart that was due is off |
| Operations.RestartReturns | apps/init.c:921-936 | A running unit that is told to restart and dies runs again as a new process with a clean record, if its requirements are met and processes start; nothing else changes |
| Operations.RestartFails | apps/init.c:921-936 | If the new process does not start the unit has failed and nothing is pending |
| Operations.StartFails | apps/init.c:744-880 | A unit that requires something unknown fails to start, with nothing pending |
| Operations.ResetClears | apps/init.c:1122-1213 | Clearing a failure changes the record and the failed state of that unit and nothing else |
| Operations.ResetThenStart | apps/init.c:1122-1213 | Clearing a failure and starting the unit runs it with a clean record; nothing else changes |
| Operations.RequirementLost | apps/init.c:1084-1120 | A running unit that requires a failed one is signalled, and its death leaves it failed |
| Operations.WaitingLost | apps/init.c:1084-1120 | A unit waiting to be restarted that requires a failed one has failed at once, without a signal |
| Operations.OneshotServes | apps/init.c:744-880 | A requirement that ran once and exited well is left alone when a unit that needs it is started |
| Operations.PullsDisabledIn | apps/init.c:744-880 | Starting a unit starts a disabled unit that it requires |
| Supervisor.Supervisor.RunSync | apps/init.c:883-897 | The whole new state of a sysinit unit: exited if it started and its status is zero, failed or disabled otherwise; no other unit changes |
| Supervisor.Supervisor.RunSysinits | apps/init.c:1377-1379 | Only sysinit units that had not failed change, and each is exited with status zero, failed or disabled |
| Supervisor.Supervisor.Order | apps/init.c:658-692 | The numbers are a bijection over the services with dependencies first; exactly the cyclic and broken services fail, nothing else changes, and the start-order invariant is kept |
| Supervisor.BootableTogether | apps/init.c:1373-1392 | The services that nothing keeps from starting form one set that is closed under requires= |
| Supervisor.Supervisor.StartAll | apps/init.c:1373-1392 | After boot every service, respawn and once unit is running, failed or disabled; when every process starts, every enabled service that reaches no cycle and whose requirements, all the way down, exist and have not failed is running; services that reach a cycle or miss a requirement have failed and are not tried; sysinit units have run once and are left alone |
| Supervisor.Supervisor.Run | apps/init.c:984-1213 | Any run of reaps, enforcement, backoff and commands keeps the start-order invariant and starts no member of a stuck set; without commands failed units stay failed; the bookkeeping of each unit that no command is for is the chain of its logged deaths |
| Supervisor.Supervisor.LastStarted | apps/init.c:1281-1297 | The live unit with the greatest start number, or none |
| Supervisor.Supervisor.StopAll | apps/init.c:1281-1297 | Signals each live unit exactly once, in strictly decreasing first-start order, so every dependent before what it requires |
| Supervisor.DependentsFirst | apps/init.c:1281-1297 | Decreasing start order puts dependents before their requirements |
| Devices.FirstIsFirst | kernel/device.c:160-185 | The binding rule picks the first claiming driver in registration order |
| Devices.Registry.TryBind | kernel/device.c:109-142 | Binds an unbound device exactly when bus, match and probe agree, and leaves no trace of a declined probe |
| Devices.Registry.DeviceRegister | kernel/device.c:160-185 | Error cases, list and result: the new device gets the first driver that claims it |
| Devices.Registry.DriverRegister | kernel/device.c:222-247 | Error cases; exactly the unbound devices it claims are bound and counted, and the first-claim invariant survives |
| Devices.Registry.DeviceUnregister | kernel/device.c:187-203 | The device leaves the list unbound, others keep their place |
| Devices.Registry.DriverUnregister | kernel/device.c:249-266 | Its devices become unbound; first-claim still holds if and only if none of them is claimed by a remaining driver |
| Devices.Stranded | kernel/device.c:160-266 | The same driver calls leave a device that two drivers claim unbound if it was registered before the first of them goes, and bound to the second if after |
| Devices.Registry.Replay | kernel/device.c:160-266 | Any history: the driver of every device is the fold of the events over its binding; every binding is to a registered driver of the same bus that matches and accepts the device; unless some removal strands a device each one has the first such driver, and goes without only if there is none |
| Devices.Confluent | kernel/device.c:109-142 | Where device events fall among the driver events does not change which driver is first |
| Devices.ReplayBoth | kernel/device.c:160-266 | Two histories with the same driver events and no stranding leave the devices they share bound to the same drivers |
| BlockStack.RegistersRoundTrip | kernel/ata.c:79-91 | The command registers select the first drive in LBA form and carry count (256 as 0) and address, the address exactly when it fits 28 bits |
| BlockStack.ChunksCover | kernel/ata.c:137-154 | The commands of a transfer are consecutive, at most 256 sectors, inside 28 bits, and cover exactly the request |
| BlockStack.Disk.constructor | kernel/ata.c:203-262 | A drive that reports more sectors than 28 bits address is clamped |
| BlockStack.Disk.RwChunk | kernel/ata.c:106-135 | One command moves exactly the sectors before the fault |
| BlockStack.Disk.Rw | kernel/ata.c:137-154 | The chunks together move a prefix, all of it when nothing fails, with exactly the commands of the specification |
| BlockStack.Disk.Blockdev | kernel/blockdev.c:115-145 | Range errors touch nothing; otherwise a prefix of the request moves and the rest of the disk is unchanged |
| BlockStack.DevFile.Read | kernel/devfs.c:459-486 | Returns exactly the bytes at the position, up to the end or the first failing block; the disk is unchanged; the 32-bit position moves only on full success |
| BlockStack.DevFile.Write | kernel/devfs.c:564-596 | Changes exactly the bytes from the position on, by read-modify-write of whole blocks; errors as the code reports them |
| BlockStack.DevFile.Seek | kernel/devfs.c:633-651 | Every whence, with out-of-range and overflowing targets refused |
| BlockStack.WriteSeekRead | kernel/devfs.c:459-651 | Write, seek back, read returns the bytes written |
| ModuleLoader.Loader.Find | apps/browser.c:1876-1885 | The newest entry of a URL, which is whoever answers to it, inline scripts included; or none |
| ModuleLoader.Loader.Add | apps/browser.c:1887-1908 | Appends a fresh entry until the table of 64 is full |
| ModuleLoader.Loader.AddInline | apps/browser.c:2012-2043 | Every inline script is entered under the next number, without a lookup |
| ModuleLoader.Loader.External | apps/browser.c:1911-2010 | The entry of what a reference stands for, an inline script of that URL or what the request ends at, never a duplicate; missing only if it does not load or the table is full |
| ModuleLoader.Loader.Transform | apps/browser.c:2413-2587 | Success means every static and literal dynamic import was evaluated before |
| ModuleLoader.Loader.Eval | apps/browser.c:2589-2624 | Terminates, leaves nothing visiting that was not, succeeds exactly for done modules; what becomes done is met at or below the path it was called for; it succeeds only if no module below is first met beyond the depth limit, and for every planned module if that holds |
| ModuleLoader.Loader.Root | apps/browser.c:2589-2624 | One root: no module left visiting; failure whenever an import cycle is reachable; success if and only if its imports load, run, fit the table and can be ranked, and the first path to each, going through imports in source order, is within the depth limit |
| ModuleLoader.RankedIsShallow | apps/browser.c:2589-2624 | Imports that can be ranked within the depth limit are first met within it, in whatever order they are written |
| ModuleLoader.DoneWasLoadable | apps/browser.c:2589-2624 | Whatever became done had all its imports load, run, fit the table and be ranked |
| ModuleLoader.Loader.RunScript | apps/browser.c:2766-2806 | One module script of the page has no entry exactly when it leads nowhere or the table is full, and then nothing happens; else it ends done or failed, done if and only if its imports load, run, fit the table, can be ranked and are first met within the depth limit; done only if it reaches no cycle of the graph with its own script in it |
| ModuleLoader.Page | apps/browser.c:2766-2806 | A whole page: every script is run in turn with the table the ones before it left, no module is handed to the engine twice, each, whether the engine accepts it or not, only after everything it imports, and no done module reaches an import cycle; references of a fetched module are relative to the URL it was fetched from, those of inline scripts and of the page itself to the page |
| ModuleLoader.FollowImports | apps/browser.c:1995-1998 | For every module handed over and every import in it: unless an inline script answers to it, what the reference resolves to, from the URL of a fetched module or from the page for an inline one, is fetched, and what that request ends at was done before |
| ModuleLoader.FollowScripts | apps/browser.c:2766-2806 | The same for the scripts of the page; an inline script has the number of inline scripts before it |
| ModuleLoader.MovingTarget | apps/browser.c:2766-2806 | A page on which the same reference first leads nowhere and later is the inline script in between |
| ModuleLoader.DoneIsAcyclic | apps/browser.c:2589-2624 | No import cycle of the graph before an evaluation is reachable from a module done after it |
| ModuleLoader.ImportsEarlier | apps/browser.c:2144-2190 | The done set is closed under imports, each evaluated earlier |
| ModuleLoader.NewestAnswers | apps/browser.c:1876-1885 | Searching the table newest first finds the latest inline script of a URL, else the module fetched from it |
| ModuleLoader.StaticTarget | apps/browser.c:1926-1933 | A reference means the same at every moment if and only if neither it nor the request for it ends at the URL of an inline script |
| ModuleLoader.StaticImports | apps/browser.c:1926-1933 | The imports of a module do not depend on the moment if and only if that holds of each of its references |
| ElfLinker.PagesBoundExtent | kernel/elf.c:142-191 | For segments without page gaps the counted pages bound the extent |
| ElfLinker.SlotsDisjoint | kernel/elf.c:16-26 | A position-independent program and its libraries get pairwise disjoint areas when every image stays within one stride of its base |
| ElfLinker.ObjectsDisjoint | kernel/elf.c:16-26 | In particular when no image has a page gap, since the page cap then keeps it within its stride |
| ElfLinker.KeepsOutExact | kernel/elf.c:142-191 | An image is disjoint from every image that stays within its stride if and only if no segment of it reaches into the slot of another object |
| ElfLinker.OverlappingLoad | kernel/elf.c:418-516 | A program with two libraries that is loaded successfully although two of its areas overlap |
| ElfLinker.Linker.MapSegments | kernel/elf.c:142-191 | Areas are added for exactly the segments, and the loop accepts exactly the mappable images |
| ElfLinker.Linker.RegisterSegments | kernel/elf.c:142-191 | Every object so far stays mapped and the next one is mapped, or the image is not mappable |
| ElfLinker.Linker.ObjectNamed | kernel/elf.c:313-320 | Finds a listed library by name; the program is never found |
| ElfLinker.Linker.ExpandObject | kernel/elf.c:418-461 | All names an object needs are listed afterwards, each once, and the list is on its way to that of the program; or the linker is stopped for a stated reason and the program is not linkable |
| ElfLinker.LevelIsDistance | kernel/elf.c:418-461 | The position of an object reflects its least DT_NEEDED distance from the program |
| ElfLinker.ListIsClosure | kernel/elf.c:418-461 | The finished list holds exactly the libraries reachable along DT_NEEDED |
| ElfLinker.Linker.Load | kernel/elf.c:418-528 | Succeeds if and only if the breadth-first list of libraries, a function of the library directory and the program, stays within the limits, every library in it exists and can be mapped and named, and every relocation goes through; then that list is loaded, without duplicates in order of distance; every segment is mapped at its base in user space; the entry point is that of the file moved along with the program, in one of its areas; brk is the least page boundary at or above every area; every relocated word that no later relocation meets is the base plus the addend or the value of its symbol plus the addend; and no other byte has changed |
| ElfLinker.Linker.Link | kernel/elf.c:418-461 | The expansion alone: succeeds if and only if the program is linkable |
| ElfLinker.StopsLinking | kernel/elf.c:418-461 | Whatever stops the expansion halfway makes the program unlinkable, however the list would have gone on |
| ElfLinker.NearestDefinition | kernel/elf.c:332-366 | A name is bound to a definition in an object at the least DT_NEEDED distance from the program |
| Relocations.Memory.FirstDefinition | kernel/elf.c:347-359 | Finds the first definition of a name, over the objects in order and the symbols of each but its entry 0, or there is none |
| Relocations.Memory.ResolveSymbol | kernel/elf.c:332-366 | The value of a symbol: its own definition, else the first of its name in any object, else zero if it is weak, else none |
| Relocations.BindsOnce | kernel/elf.c:332-366 | That determines the value |
| Relocations.Memory.RelocateTable | kernel/elf.c:368-416 | Succeeds if and only if the table is well formed and each relocation has a value and a target it may write; then memory is that of all of them in order |
| Relocations.Memory.Relocate | kernel/elf.c:463-470 | The same over all objects and both tables of each |
| Relocations.AllRelocated | kernel/elf.c:368-470 | After success each table entry, in table order: relative ones hold the load base plus the addend, symbolic ones the value of their symbol plus the addend, unless a later entry meets the word; bytes that no entry covers are unchanged |
| Relocations.OneAddress | kernel/elf.c:332-366 | The object with the first definition of a name and every object that only refers to it agree on its address |
| Relocations.MovesAlong | kernel/elf.c:332-366 | Loading the defining object elsewhere moves the address along |
| Relocations.LastWins | kernel/elf.c:368-416 | After relocation a byte is that of the last relocation that covers it, or what it was |
| Relocations.RelocatedWord | kernel/elf.c:368-416 | A relocated word that no later relocation touches reads back as its value |
| Grammar.EvalIsExact | apps/calc.c:127-211 | A value without error is the exact integer value with truncating division |
| CalcParser.CalcIsExact | apps/calc.c:173-211 | calc prints v if and only if the input is a sentence of the grammar within the depth cap whose checked value is v |
| CalcParser.CalcEvaluates | apps/calc.c:173-211 | For every sentence within the cap the answer is its value, or the first overflow or division by zero from left to right |
| CalcParser.PrintThenCalc | apps/calc.c:51-211 | Printing a tree and feeding it to calc gives the evaluation of the tree |
| CalcParser.ShapedExactly | apps/calc.c:60-215 | Exactly the trees with parentheses where the grammar wants them have a text |
| CalcParser.CompleteExpr | apps/calc.c:173-211 | The parser finds every expression that the grammar derives |
| CalcParser.SoundExpr | apps/calc.c:173-211 | Whatever the parser accepts is derived by the grammar, with that value |
| Calc.DivisionFits | apps/calc.c:127-171 | Division overflows only for -1, remainder never |
| Calc.Division | apps/calc.c:127-171 | Division rounds towards zero: quotient and rest make up the dividend, the rest is smaller than the divisor and has the sign of the dividend |
| Calc.Extremes | apps/calc.c:60-215 | The 64-bit range is used to its ends and no further |
| Calc.Calculator.TermOp | apps/calc.c:127-171 | The overflow tests before multiplying and dividing are exact |
| Calc.Calculator.Evaluate | apps/calc.c:241-248 | The recursive-descent parser with its globals computes the specification on every input and terminates |
| Transcript.PutByte | apps/terminal.c:349-416 | Any byte keeps cursor and view in range, keeps every line that scrolled off, and moves a scrolled-back view along |
| Transcript.ViewSteady | apps/terminal.c:141-152 | Text under a scrolled-back view does not move until the scrollback has lost it |
| Transcript.RunConcat | apps/terminal.c:418-426 | The meaning of output does not depend on how it is cut |
| TerminalSequences.ParamsBack | apps/terminal.c:276-300 | Up to eight numbers between semicolons are read back as they were written |
| TerminalSequences.RunSequence | apps/terminal.c:276-376 | A control sequence acts as its final byte with its numbers |
| TerminalSequences.Address | apps/terminal.c:315-319 | H and f put the caret on the row and column they name |
| TerminalSequences.Moves | apps/terminal.c:307-310 | A, B, C and D move up, down, right and left and stop at the edge |
| TerminalSequences.MovesToLines | apps/terminal.c:311-314 | E and F go to the start of a later or earlier row, G to a column and d to a row |
| TerminalSequences.Omitted | apps/terminal.c:276-347 | A sequence without a number is one with a zero |
| TerminalSequences.SavedAndRestored | apps/terminal.c:331-338 | u goes back to where s was |
| TerminalSequences.ErasesScreen | apps/terminal.c:187-204 | J blanks from the caret on, up to and with the caret, or everything, and nothing else |
| TerminalSequences.ErasesLine | apps/terminal.c:206-217 | K does the same within the row of the caret |
| TerminalSequences.Colours | apps/terminal.c:221-262 | What each colour number does to the pen |
| TerminalSequences.ColourList | apps/terminal.c:221-262 | A list of colour numbers is one after the other |
| TerminalSequences.Visibility | apps/terminal.c:323-330 | ?25h and ?25l show and hide the cursor, without the question mark they do nothing |
| TerminalSequences.Prints | apps/terminal.c:163-185 | A character goes into the cell of the caret, bright if bold and with the colours exchanged if reversed; no other cell changes |
| TerminalSequences.Wraps | apps/terminal.c:163-185 | Behind the last column it goes to the next row first, as after a line feed |
| TerminalSequences.LineFeeds | apps/terminal.c:154-161 | A line feed goes to the start of the next row; from the last one a blank line is added |
| TerminalSequences.Controls | apps/terminal.c:386-416 | Carriage return and backspace move the caret alone; other control bytes do nothing |
| TerminalSequences.Tabs | apps/terminal.c:401-407 | A tab prints spaces up to the next multiple of eight |
| TerminalSequences.CommandsSwallowed | apps/terminal.c:349-380 | Operating system commands are swallowed up to BEL or an escape and the byte after it |
| Terminal.Terminal.ScreenRow | apps/terminal.c:117-126 | For every view within the scrollback a window row is the corresponding line of the unbounded transcript |
| Terminal.Terminal.ClearCells | apps/terminal.c:128-137 | Blanks part of one screen row and disturbs no other retained line |
| Terminal.Terminal.ScrollUpOne | apps/terminal.c:141-152 | Turning the ring appends a blank line and alters no retained row |
| Terminal.Terminal.PutGlyph | apps/terminal.c:163-185 | Deferred wrap and pen as in the transcript |
| Terminal.Terminal.EraseDisplay | apps/terminal.c:187-204 | The three screen erasures |
| Terminal.Terminal.EraseRow | apps/terminal.c:206-217 | The three line erasures |
| Terminal.Terminal.Sgr | apps/terminal.c:221-262 | The pen after a whole parameter list |
| Terminal.Terminal.ParseParams | apps/terminal.c:276-300 | At most eight numbers, missing ones zero, the private mark apart |
| Terminal.Terminal.DoCsi | apps/terminal.c:276-347 | Every control sequence acts as in the transcript and ends on the screen |
| Terminal.Terminal.Feed | apps/terminal.c:418-426 | After any output the ring holds the last 24 lines and min(scrolls, 200) lines before them, and the view is live |
| Terminal.Terminal.PageUp | apps/terminal.c:1111-1134 | On the ring, paging up as in the transcript, which never leaves the stored scrollback |
| Terminal.Terminal.PageDown | apps/terminal.c:1111-1134 | On the ring, paging down as in the transcript |
| Transcript.OlderLines | apps/terminal.c:1114-1119 | Paging up keeps the upper half of the window as the lower half, and paging down undoes it; or else the oldest stored lines are shown |
| Transcript.NewerLines | apps/terminal.c:1120-1125 | Paging down keeps the lower half as the upper half, and paging up undoes it; or else the live screen is shown |
| Transcript.EveryLineShown | apps/terminal.c:1111-1134 | Paging up from the live screen brings every stored line into the window |
| PackageDb.OctBack | apps/kpkg.c:161-177 | A printed mode reads back as its low nine bits |
| PackageDb.NumberStops | apps/kpkg.c:170-187 | Anything but a digit of the base ends a number |
| PackageDb.Decimal32 | apps/kpkg.c:179-186 | A 32-bit number reads back |
| PackageDb.FieldBack | apps/kpkg.c:202-217 | A word that fits its buffer is read back whole and the cursor stops after it |
| PackageDb.LineBack | apps/kpkg.c:821-854 | A printed entry parses to itself with the mode reduced |
| PackageDb.ReadBack | apps/kpkg.c:857-896 | A printed list reads back entry by entry, in order, if and only if it is within the 1 MiB read limit |
| PackageDb.HexBack | apps/kpkg.c:188-200 | A digest can be read back from its text |
| PackageDb.StoredTells | apps/kpkg.c:821-855 | A stored entry tells everything about a file, its digest included, but the upper mode bits |
| PackageDb.ContainsSomewhere | apps/kpkg.c:350-372 | The search in a path finds a text wherever it is |
| PackageDb.TornBack | apps/kpkg.c:857-896 | A printed list cut anywhere reads back as its whole lines and, if the cut is inside the last path, that entry with the shorter path |
| PackageDb.TextShort | apps/kpkg.c:1079-1108 | A line is at most 233 bytes, so 4500 entries always fit the limit |
| PackageDb.PrintList | apps/kpkg.c:1079-1108 | The text buffer is always large enough: the file list error cannot occur |
| PackageDb.ReadList | apps/kpkg.c:857-896 | The line loop reads what the specification says of any text, malformed lines skipped |
| Packages.Manager.OtherOwner | apps/kpkg.c:977-1007 | True exactly when another visible package lists the path |
| Packages.Manager.CountConflicts | apps/kpkg.c:928-969 | Positive exactly when another visible package owns a regular file of this one |
| Packages.Manager.Extract | apps/kpkg.c:1011-1046 | All files in place, or exactly the ones before the failing entry |
| Packages.Manager.UnlinkList | apps/kpkg.c:1121-1144 | Leaves exactly what going through the list from its end leaves, and deletes everything that nothing stands in the way of |
| Packages.SweptFacts | apps/kpkg.c:1121-1144 | Going through a list deletes nothing that is kept or that another visible package lists, and nothing at all exactly when nothing in it can be deleted |
| Packages.SweptSteady | apps/kpkg.c:1121-1144 | A path whose unlinking does not depend on what else exists is deleted if and only if it is listed, present, not kept, listed by no other visible package and can be unlinked |
| Packages.Manager.WriteOut | apps/kpkg.c:1229-1261 | For every way the disk can fail: the whole new database and files, every install invariant kept, and the exact conditions for single ownership and for listed files to stay in place |
| Packages.Manager.Install | apps/kpkg.c:1169-1265 | Terminates for every repository; nothing is unregistered; closure, visible ownership and listed files are kept, failed installs included; success means that the package is there with its whole list, its dependencies line, all its files and everything it depends on; exactly when a ready package is installed and exactly when ownership then stays single and listed files stay in place; success when the dependencies can be ranked and installed |
| Packages.Manager.InstallByName | apps/kpkg.c:1303-1319 | The same by index name, and the name is then registered if index and packages agree on names |
| Packages.Manager.InstallCommand | apps/kpkg.c:1353-1385 | One command line name: an installable set of packages is installed |
| Packages.Manager.Remove | apps/kpkg.c:1387-1443 | The whole new state; deletes only files of the package, all others it can, never one that another visible package lists, and one that another registered package lists if and only if that one is hidden and the file is deletable; keeps ownership single |
| Packages.Manager.Session | apps/kpkg.c:1353-1443 | Any sequence of commands: every record is of a package that is to be had, with its dependencies and the start of its list; closure without removals; every path that any registered package lists is present as long as no command met the exact condition for losing one; without --force and with lists written whole, visible ownership is single and visible lists are present, with --force too on a reliable disk, and all of it for all packages when every package is visible |
| Packages.InstallThenRemove | apps/kpkg.c:1353-1443 | Installing a new package with new files and removing it again restores database and file system |
| Packages.RegisterSingle | apps/kpkg.c:928-969 | After the conflict check, ownership stays single if and only if no file of a package the check cannot see is taken |
| Packages.TornRecord | apps/kpkg.c:1079-1118 | A list cut short breaks visible ownership if and only if the shortened last path is owned by another visible package; and single ownership if and only if that or a hidden file is taken |
| Packages.WroteSingle | apps/kpkg.c:1229-1261 | The exact condition over every outcome of recording |
| Packages.WroteKept | apps/kpkg.c:1229-1261 | Over every outcome of recording, listed files stay in place if and only if no file of a hidden package is pruned, no record is lost after a prune, and no path cut short in the list is missing |
| Packages.RemoveExact | apps/kpkg.c:1387-1443 | Removing a package keeps every file a visible package lists, and every file a registered one lists if and only if none listed by a hidden one is deleted |
| Packages.HiddenLossSteady | apps/kpkg.c:1121-1144 | For paths whose unlinking does not depend on what else exists: a file of a hidden package is lost if and only if both list it, it is present and it is deletable |
| Packages.HiddenInputs | apps/kpkg.c:928-957 | A name with a leading dot and a list beyond the read limit are acceptable packages that the check cannot see |
| Packages.SecondOwner | apps/kpkg.c:1169-1265 | Two unforced installs that both succeed and leave one file with two owners, for every hidden package and every other that has a file of it |
| Packages.RemovedFromUnder | apps/kpkg.c:1387-1443 | Removing the second one deletes the file that the first one still lists |
| Packages.TornOwner | apps/kpkg.c:1169-1265 | Two unforced installs, the second with its list cut short, that leave two visible packages owning one path |
| Packages.TornLost | apps/kpkg.c:1169-1265 | One first install whose list, cut short, names a file that is not there |
| Packages.LostFile | apps/kpkg.c:1169-1265 | A forced reinstall that loses its record leaves a listed file deleted |
| Paths.Canonicalize | apps/du.c:35-71 | In place, the write index behind unread input: split, resolve and join of any absolute path; other paths are left alone |
| Paths.CanonIsClean | apps/du.c:35-71 | The result has no empty, dot or dot-dot component |
| Paths.CanonIdempotent | apps/du.c:35-71 | Canonicalising twice changes nothing |
| Paths.DropLast | apps/du.c:35-71 | Going up removes the last component, and stops at the root |
| Paths.CanonChild | apps/du.c:35-71 | A name leads one level down from wherever a path leads |
| Paths.CanonParent | apps/du.c:35-71 | Two dots undo it, and at the root they lead nowhere |
| Paths.CanonDot | apps/du.c:35-71 | A dot and further slashes make no difference |
| Paths.PathJoinNorm | apps/sh.c:153-205 | The shell version with its 64-part and length limits, on any input |
| Paths.FullComps | apps/sh.c:162-167 | A relative path goes on where the base leads |
| Paths.CapExact | apps/sh.c:153-205 | Keeping at most 64 parts gives the true resolution if and only if the components, from some point where they are back at the root, never resolve to more than 64 |
| Paths.JoinNormIsCanon | apps/sh.c:153-205 | On a path that fits its buffer the shell version gives the same canonical path if and only if the part limit leaves no trace and the result fits the output |
| Paths.ResolveIsNet | apps/sh.c:153-205 | Whatever components do to any starting point is going up some levels and then down some names |
| Paths.BufferCut | apps/sh.c:153-205 | Of a longer path it sees the first 511 bytes; the result is right if and only if the components taken of those, those dropped at the part limit left out, have the net effect of the whole path from the root, or the output is cut exactly at the right path; if the part limit leaves no trace the former means that what the buffer holds of the last component and the rest of the path have the same net effect |
| Paths.CappedIsTaken | apps/sh.c:170-191 | Keeping at most 64 parts is resolving the components that find room |
| Paths.LongPathLost | apps/sh.c:153-205 | No canonical path of 512 bytes or more survives |
| Paths.PartLimitBites | apps/sh.c:153-205 | A canonical path of 65 directories does not come back |

## Left out

- The VGA text backend, glyph pixels and screen margins of kernel/console.c: tiles are whole character cells and the shadow buffer is present.
- The line editor on consoles that are not 80 columns wide, where the constant in apps/sh.c no longer matches the screen; and how tab completion searches for names and how the history ring stores lines, which are inputs here.
- Reloading service files (reload_service) and the requirement order across a reload; parsing of unit files; the table limit on units; the second half of do_shutdown after the signals.
- A requirement start that a unit in back-off receives early is modelled as the code does it; no minimum wait is claimed.
- Buses: the bus registry, enumeration, and probes that register further devices, with the recursion limit that bounds them.
- Hardware register protocol, delays and timeouts of kernel/ata.c; a command moves a prefix of its sectors and then fails or completes.
- ModuleLoader.Loader.Transform: the scan of the source text that finds the imports and rewrites them is not modelled; a module is the sequence of its imports, and script engine and fetches answer consistently.
- ElfLinker.Linker.Load: reading files and dynamic sections is not modelled: what they lead to, the needed names, symbols and relocation tables, is part of an image. Memory is a function of the address, so paging in is only whether a store goes through.
- Packages.Manager.Install: closure assumes that index names equal package names; parent directories, payload digests, the .kpkg container, a metadata file cut short after it was opened, the depends= text and package files that overlap the database directory itself are outside the model.
- Terminal.Terminal.Feed: the line counter is unbounded, where the code has a 32-bit int; parameters of more than nine digits likewise. The built-in shell of the window and painting are not modelled.
- BlockStack.DevFile.Read: the position is kept modulo 2^32 as in the code; devices of 2^32 bytes or more are covered with that wrap-around.
- Drawing, windows, HTTP, layout, the script engine, accounts and the small command-line tools: no state worth an invariant beyond the ones here.
