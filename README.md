# RemoteSensors dashboard core, modelled in Dafny

RemoteSensors is a full-screen terminal dashboard for a Raspberry Pi reached
over SSH. Each tick it refetches the disk table if asked to, reads the board's
status values, draws them, reads one key without waiting and applies it. This
project models the decision logic inside `main()` of `main.py`. Each piece is
its own module, and the SSH connection and the curses screen become
parameters:

- `Throttling` (`throttling.dfy`) models the scan over the throttling status
  bit string. Index 0 is the first character. A `'1'` at index 0 to 3 adds a
  label to the "Current" column and a `'1'` at index 16 to 19 adds one to the
  "Since last boot" column. Every other character is skipped. `DrawStatus` is
  the loop with its three counters. It is proved against `Reported`, which is
  defined character by character, and `Reported` is proved equal to a separate
  reading of the eight-entry table (`TableUpTo`).
- `Temperature` (`temperature.dfy`) models the colour tier (thresholds 55 and
  65), the fill count `int(temp * MAX_BAR_COLS / scale)` truncated toward
  zero, and the `ljust`-padded bar. The GPU bar's scale is the configured
  `MAX_TEMP`. The CPU bar's scale is the literal 70.
- `Layout` (`layout.dfy`) models the governor grid loop (column step 15, wrap
  once the offset passes 40, so 3 per row) and the codec grid loop (step 6,
  wrap past 50, so 9 per row), as methods with loop invariants.
- `DiskTable` (`disk.dfy`) models the disk-line loop. The text is split on
  newlines and lines are taken up to the first empty one. Each line is split
  on tabs, and its five fields go to columns 3, 15, 25, 35 and 45. A line with
  fewer than five fields is an error.
- `Processes` (`processes.dfy`) models the active and total process counts
  read from the `"a/b"` field of the load average, each less one.
- `Dashboard` (`dashboard.dfy`) models the loop state: the stop flag, the
  pending disk refetch, the unit mode, the refresh interval and the kept disk
  text. `OnKey`, `Refetch`, `TickStep` and `Run` are the specification
  functions. The class `Controller` holds the same fields and updates them in
  place with `HandleKey`, `RefreshDisk`, `Tick` and `Loop`. Each method is
  proved equal to its specification function.
- `Text` (`text.dfy`) holds Python's `str.split(sep)` and `int(...)` on a run
  of digits, with their inverses. `Screen` (`screen.dfy`) holds the emitted
  cell (a row, column, text and attribute tuple) and the three colour pairs.
  `Wrappers` holds `Option`.

Values the program reads from its `utils` module (`MAX_BAR_COLS`, `MAX_TEMP`,
`CODECS`, the start-up flags and `REFRESH`), the codec set from
`utils.prepare_codecs`, and every remote fetch are parameters or tick inputs.
The refresh interval is an exact `real`, so float drift does not occur.

In these places the code does something other than one might expect of such a dashboard, and the model follows the code:

- A status character other than `'0'` or `'1'` is not a parse error. The code
  compares each character with `'1'` and skips everything else.
- The bar fill is not clamped to the bar width. A reading above full scale
  gives a bar longer than `MAX_BAR_COLS` (`Bar`: length `max(fill, width)`).
- The `'-'` key resets the interval to 0.1 only when the result is zero or
  less. The interval therefore stays positive whatever positive value it
  starts from (`Run`). In exact arithmetic, from a whole number of tenths it
  stays at 0.1 or more (`TenthsAgree`); with floats it need not (see "## Left out"). From other values it can fall below 0.1: from 0.15, `'-'`
  gives 0.05 (`OffTenthsFallsBelowStep`).
- A resize clears and redraws the screen at once and changes no state.
- The menu line advertises `(s)` for a status update, but the key handler has
  no case for `'s'`. The model treats it as any other ignored key (`KeyEffects`).

## Model

| member | source | states |
|---|---|---|
| Throttling.FlagAt | main.py:211-238 | exactly the indices 0-3 and 16-19 are meaningful; 0-3 belong to the current column, 16-19 to the since-boot one, and offset k of a column stands for the k-th of under-voltage, frequency capping, throttling and soft temperature limit |
| Throttling.DrawStatus | main.py:207-239 | the scan with its index and two column counters places exactly the current column's labels (row 6+k, column cols-60, red bold) followed by the since-boot column's labels (row 6+k, column cols-30, yellow) |
| Throttling.ScanStep | main.py:211-239 | one more character adds the condition of its index to the column the index belongs to when it is '1', and nothing otherwise |
| Throttling.ColumnsStep | main.py:212-238 | one more character places at most one more cell, on the next free row of its column |
| Throttling.ColumnCells | main.py:213-238 | the k-th label of a column is drawn at row 6+k in that column's place and attribute |
| Throttling.NoBootBefore16 | main.py:227-238 | the first 16 characters contribute nothing to the since-boot column |
| Throttling.ReportedMatchesTable | main.py:211-239 | the scan reports, in index order, exactly the table conditions of the four indices of a column whose character is '1'; no other index contributes |
| Throttling.LabelWordings | main.py:214-237 | both columns word under-voltage and the soft temperature limit alike; they word frequency capping ("capping" / "capped") and throttling ("Throttling" / "Throttled") differently |
| Throttling.ReportedUpTo | main.py:211-239 | after n characters a column holds no label when n does not reach past its first index, at most one label per meaningful index scanned, and never more than four |
| Throttling.Reported | main.py:211-239 | each column holds at most four labels |
| Throttling.ReportedAscending | main.py:211-239 | each column lists its conditions in strictly increasing table position, so none appears twice |
| Throttling.AllZeroReportsNothing | main.py:212 | a string with no '1' gives two empty columns |
| Throttling.SingleBitReportsOne | main.py:211-239 | a string whose only '1' is at a meaningful index reports that index's condition once, in its own column, and nothing in the other; at any other index it reports nothing |
| Throttling.SingleBitDrawn | main.py:213-238 | such a string draws one cell: at row 6, in its column's place, with its column's words for it (the current and since-boot wordings differ for capping and throttling) |
| Screen.PairNumber | main.py:36-38 | a colour maps to one of the three colour pairs set up at start; the body is the three-entry table green 1, yellow 2, red 3 |
| Temperature.Tier | main.py:101-106 | green exactly below 55, yellow exactly from 55 up to but not including 65, red exactly from 65 on |
| Temperature.TierMonotone | main.py:116-121 | the tier's colour-pair number never drops as the temperature rises |
| Temperature.Trunc | main.py:108 | `int()` of a real: the nearest integer toward zero |
| Temperature.Scaled | main.py:107 | the scaled reading times the scale equals the temperature times the bar width |
| Temperature.Fill | main.py:107-108 | the fill is the scaled reading truncated toward zero: the largest integer not above it when it is non-negative, the smallest not below it when it is negative |
| Temperature.FillMonotone | main.py:107-108 | for temperatures from zero up, a hotter reading never gives fewer blocks |
| Temperature.FillAtFullScale | main.py:107-108 | at the full-scale temperature the fill equals the bar width |
| Temperature.FillWithinWidth | main.py:107-108 | between zero and full scale the fill lies between 0 and the width |
| Temperature.Bar | main.py:108-110 | the bar is `max(fill, width)` long: blocks at positions below the fill and spaces after them; padding never truncates |
| Temperature.TempLine | main.py:109-111 | a temperature line places the caption at column 3, the bar at column 14 in the tier's colour, and the reading followed by " ºC" at column 14 + width + 2, both captions and readings plain |
| Temperature.TempLines | main.py:99-126 | the GPU bar scales against the configured maximum, and the CPU bar on the row below scales against 70 |
| Temperature.CpuFullAt70 | main.py:122-125 | a CPU reading of 70 fills its bar exactly and shows it red, whatever the configured maximum |
| Layout.PlaceGovernors | main.py:169-182 | governor i is placed at row offset i div 3, column 45 + 15 (i mod 3); only a governor equal to the active one gets colour pair 1 |
| Layout.PlaceCodecs | main.py:190-201 | codec i is placed at row offset i div 9, column 20 + 6 (i mod 9), green when supported and red otherwise |
| Layout.GovernorsRowMajor | main.py:179-182 | later governors come on a later row or further right on the same row, so no two share a place |
| Layout.GovernorsPerRow | main.py:179-182 | each governor row holds exactly three names, at columns 45, 60 and 75 |
| Layout.CodecsRowMajor | main.py:198-201 | later codecs come on a later row or further right, so no two share a place |
| Layout.CodecsPerRow | main.py:198-201 | each codec row holds exactly nine names, from column 20 to column 68 |
| Text.Split | main.py:83 | splitting never gives an empty list, and no part contains the separator |
| Text.JoinSplit | main.py:83 | joining the parts with the separator gives back the text |
| Text.SplitJoin | main.py:87 | splitting separator-free parts joined by the separator gives back the parts |
| Text.ParseNat | main.py:138 | `int()` succeeds exactly on a non-empty run of decimal digits |
| Text.ParseShowNat | main.py:138 | reading back a number's decimal digits gives the number |
| DiskTable.FirstEmpty | main.py:83-85 | the lines taken are exactly those before the first empty line |
| DiskTable.FirstIncomplete | main.py:87-92 | the position of the first line with fewer than five fields |
| DiskTable.LineCells | main.py:87-92 | a complete line puts field j at column 3, 15, 25, 35 or 45 on its row |
| DiskTable.TableCellAt | main.py:82-94 | the table has five cells per line, and field j of line k is cell 5k+j, on row top+1+k |
| DiskTable.Expected | main.py:82-96 | a successful placement ends with the counter one past the number of lines before the first empty one; an error names a line from 1 up to that number |
| DiskTable.PlaceTable | main.py:82-96 | the loop with its line counter yields exactly the expected placement of the disk text |
| DiskTable.PlacementMeaning | main.py:82-96 | placement succeeds exactly when every line before the first empty one has five fields; then the k-th line's fields go to row top+1+k at the fixed columns and the counter ends at lines+1; otherwise the error names the first short line |
| DiskTable.JoinedLinesPlaced | main.py:83-85 | for text made of non-empty lines each ending in a newline, every line is placed |
| Processes.ProcessCounts | main.py:137-153 | counts exist exactly when there are at least four load fields and the fourth splits on '/' into at least two parts whose first two are runs of digits; the counts are those two numbers less one |
| Processes.CountsOfField | main.py:138-153 | the field "a/b" gives active a-1 and total b-1 |
| Processes.ExtraPartsIgnored | main.py:138-153 | further '/'-separated parts after the second do not change the counts |
| Dashboard.OnKey | main.py:252-269 | a key never changes the disk text, never clears the stop flag, and keeps a positive interval positive |
| Dashboard.KeyEffects | main.py:254-263 | 'q' sets only the stop flag, 'd' sets only the refetch request, 'h' flips the unit mode and sets the request, '+' adds 0.1; resize, no key and every other key change nothing |
| Dashboard.DecrementClamps | main.py:266-269 | '-' subtracts 0.1, and from 0.1 or less the interval becomes exactly 0.1 |
| Dashboard.NextTenths | main.py:264-269 | counted in tenths, the interval never goes below one tenth |
| Dashboard.TenthsAgree | main.py:264-269 | from a whole number of tenths, the real-valued handler and the tenths count agree, so the interval stays at least 0.1 |
| Dashboard.OffTenthsFallsBelowStep | main.py:266-269 | from 0.15, '-' leaves the interval at 0.05, below one tenth, because the reset applies only to results of zero or less |
| Dashboard.Refetch | main.py:63-65 | after the refetch step no request is pending; the disk text is the fetched one exactly when a request was pending, and nothing else changes |
| Dashboard.TickStep | main.py:63-269 | one tick sets the stop flag exactly when it was set or the key is 'q', flips the unit mode exactly when the key is 'h', and keeps a positive interval positive |
| Dashboard.TickDisk | main.py:63-65 | a tick uses the fetched disk text exactly when a refetch was pending and keeps the old text otherwise; afterwards a request is pending exactly when the tick's key was 'd' or 'h' |
| Dashboard.FirstQuit | main.py:257-258 | the position of the first tick whose key is 'q' |
| Dashboard.Ticks | main.py:57 | the loop runs at most one tick per input, and it stops before the inputs run out only by ending stopped |
| Dashboard.RunStopsAtQuit | main.py:57 | from a running state the loop runs up to and including the first 'q' tick, and it ends stopped exactly when such a tick exists |
| Dashboard.StoppedStaysStopped | main.py:57 | with the stop flag set, no tick runs and nothing changes |
| Dashboard.Run | main.py:57-271 | a positive interval stays positive over any number of ticks |
| Dashboard.Controller.constructor | main.py:50-57 | the loop starts with the start-up flags, interval and disk text |
| Dashboard.Controller.HandleKey | main.py:252-269 | the in-place key handler leaves exactly the state `OnKey` gives, with a positive interval |
| Dashboard.Controller.RefreshDisk | main.py:63-65 | the in-place refetch leaves exactly the state `Refetch` gives |
| Dashboard.Controller.Tick | main.py:57-269 | one pass of the loop body leaves exactly the state `TickStep` gives |
| Dashboard.Controller.Loop | main.py:57-271 | the loop runs while the stop flag is clear and leaves exactly the state and tick count `Run` and `Ticks` give |

## Left out

- SSH: connecting, the `conn.*` queries and `finalize_conn`. The SSH module is not part of this model. Each fetched text is an input: the disk text of a tick, the status string, the governor and codec lists, and the load fields.
- curses: `clear`, `border`, `refresh`, the colour-pair setup, `nodelay`/`timeout`, `getch` and `finalize`. Drawing is modelled only as the emitted cells of the modelled pieces. The fixed captions, the header line, RAM, CPU usage, frequency and load texts, the refresh and unit lines, the "Active: " and "Total: " captions at column 40 with the process counts at column 50 (main.py:139-140, 154-155), the GPU memory text (main.py:188) and `print_menu` are not modelled, because they are constant placements of fetched text. `ProcessCounts` models only how the counts are read.
- The centring of the uptime, kernel and size texts is trivial arithmetic over texts the model does not see.
- `time.sleep(utils.REFRESH)` and the real time between ticks.
- Start-up: the terminal width check, the argument count check and `exit`. These are process plumbing.
- Floats: the drift of repeated `+= 0.1` and `-= 0.1`, which can leave the interval just above zero instead of at 0.1 (from 1.0, ten presses of '-' give about 1.4e-16 in double arithmetic, which the `<= 0` test does not reset, so the sleep is about zero), the `__round__(2)` display, `str(temp)` (the shown reading is a parameter) and `float(...)` parsing. Temperatures and the interval are exact reals.
- Text.ParseNat: Python's `int()` also accepts surrounding whitespace, a sign and digit-group underscores. The model accepts only a plain run of digits and treats anything else as a failed read.
- The catch-all `except Exception` path. Its triggers appear only as error results: a short disk line (`MissingField`) and an unreadable process field (`None`). In the program an exception in any tick (those two, or a failed fetch) leaves the loop at once without setting the stop flag (main.py:274-277). `Run`, `Ticks` and `Controller.Loop` never end on an error, so `RunStopsAtQuit` describes only runs without one. A non-positive scale is excluded by requiring a positive one. That rules out the division by zero of a zero `MAX_TEMP`, and also the negative `MAX_TEMP` that Python would compute with.
- The unit mode (`HUMAN_DISK_INFO`): `main.py` reads the flag only to display it on the "Human units:" line (main.py:243). The `'h'` key also requests a disk refetch (main.py:263). Any effect on how the disk text is formatted belongs to the SSH module, which is not part of this model.
- The vertical chaining of sections: `currentrow` grows after each section (main.py:96, 113, 128, 148, 161, 184), so each section starts below the previous one. In the model, the top rows of `TempLines`, `PlaceGovernors` and `PlaceCodecs` are free parameters and are not tied to the counter `PlaceTable` ends with.
- Dashboard.Controller.Loop: the real loop runs until 'q' is pressed. The model runs on a finite sequence of tick inputs and also stops when they run out.
