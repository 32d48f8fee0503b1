# Riel todo list — a Dafny model of the task-list logic

The widget (`script.js`, class `TodoApp`) keeps an in-memory list of task
records, persists it to browser storage after each change, and draws a
filtered and searched view of it with counters and export buttons. This
project models the pure part of that class as functions over an immutable
`seq<Task>`, and proves what each operation promises:

- `Store` — the `Task` record; `loadTasks`'s defensive filter over a parsed
  JSON value; the record shape `save` writes and the save-then-load round
  trip; `addTask` (trim, reject an empty title, prepend), `deleteTask`
  (confirmation, filter by id), `toggleTask` (flip the first match) and the
  `checkAllCompleted` condition.
- `Stats` — `updateStats`: total, completed, pending and the rounded
  percentage, with no division when the list is empty.
- `View` — the filter-mode and search predicates of `render` and the
  visible projection, plus the query normalisation of the search box.
- `Export` — `exportJSON` (every record without its photo) and `exportTXT`
  (header plus numbered lines with check mark, category and annotations).
- `Image` — the width rule of `compressImage` (at most 800 pixels wide,
  aspect ratio kept).
- `Text`, `Json`, `Seqs` — the JavaScript built-ins the above relies on:
  `trim`, ASCII `toLowerCase`, `includes`, decimal rendering of numbers,
  truthiness and property access on parsed values, and `Array.filter`.

Ids and timestamps are parameters (the source uses `Date.now()` and
`new Date()`); ids are not assumed to be unique, because nothing in the code
enforces it. The confirmation dialog of delete is a boolean parameter, the
outcome of the awaited image compression is a parameter of add, and the
filter mode and search query are parameters of the view.

The promise `compressImage` builds (script.js:132-152) resolves only from
the image's `onload` handler, and it has no error handler. When the file
cannot be read or decoded, the promise never settles, and `addTask` never
gets past its `await`, so no task is added. The `catch` in `addTask`
(script.js:164-171) runs only for a promise that rejects, and then the task
is added with a null photo. `Store.Attachment` therefore has four cases:
`NoFile`, `Compressed`, `Rejected` (the task is added with a null photo) and
`Stalled` (nothing is added).

## Model

| member | source | states |
|---|---|---|
| Store.LoadTasks | script.js:109-122 | anything other than a parsed array (no entry, a parse error, a non-array) loads as the empty list; an array loads as an order-preserving subsequence that holds every value with a truthy `id` and `title` and no other value (how many times each is kept is fixed by `Store.LoadEntrywise`) |
| Store.LoadEntrywise | script.js:114 | loading decides entry by entry: it distributes over concatenation of the array, and a single entry is kept iff `t && t.id && t.title` holds, which fixes the result for every array |
| Store.SaveThenLoad | script.js:109-126 | loading what `save` wrote gives back exactly the records of the tasks with a non-empty id and title, in order, so a list of such tasks comes back whole |
| Store.EncodeInjective | script.js:174-184 | the saved record determines the task: two tasks save to the same record iff they are equal |
| Store.FieldsInjective | script.js:174-184 | the saved fields other than `photo` agree iff the tasks agree on everything but the photo |
| Store.AddTask | script.js:155-186 | a title that is all white space, or a photo that never arrives, leaves the list unchanged; otherwise the list grows by one, the tail is the old list, and the head is a pending task with the given id and timestamp, the trimmed (non-empty) title, trimmed description and location, the raw category and time, and the compressed photo or none |
| Store.FirstIndex | script.js:216 | `find` by id: the index of the first task with that id, none exactly when no task has it |
| Store.DeleteTask | script.js:202-213 | a declined confirmation changes nothing; a confirmed delete leaves an order-preserving subsequence with no task of that id that holds every task value of another id; an absent id changes nothing; a present one shortens the list |
| Store.DeleteEntrywise | script.js:207 | delete decides task by task: it distributes over concatenation and drops a single task iff its id matches |
| Store.DeleteUndoesAdd | script.js:186-207 | deleting the id a successful add used, when the list did not hold it before, restores the previous list |
| Store.ToggleTask | script.js:215-218 | the length is kept; the first task with the id has `completed` flipped and every other position is unchanged; with no match the list is unchanged |
| Store.ToggleTwice | script.js:216-218 | toggling the same id twice restores the list |
| Store.AddDeleteKeepPersistable | script.js:114 | lists built by a successful add with a non-empty id, and by any delete, keep passing the load filter |
| Store.ToggleKeepsPersistable | script.js:114 | a toggle keeps every task of a list passing the load filter |
| Store.ToggleAndCheck | script.js:215-242 | the celebration is scheduled iff some task has the id, the first such task was pending, and every other task was already completed; when it is, the new list is all done |
| Stats.RoundPercent | script.js:312 | 0 for an empty list; otherwise the integer nearest 100 * completed / total with halves rounding up, at most 100, 0 when nothing is completed and 100 when everything is |
| Stats.UpdateStats | script.js:309-312 | the total is the list length, completed plus pending is the total, completed is 0 iff no task is completed and equals the total iff every task is, and the percentage is the rounded one |
| Stats.CompletedEntrywise | script.js:311 | the completed count adds up over any split of the list, and a single task counts 1 iff it is completed, so the count is the number of completed tasks |
| Stats.QuarterDone | script.js:309-316 | four tasks of which the first is completed and the other three are not show 4 total, 1 completed, 3 pending and 25% |
| Stats.AllDoneIffCounts | script.js:235 | the celebration condition holds iff the list is non-empty and the completed count equals the total |
| Stats.HundredIff | script.js:312 | for a non-empty list the percentage is 100 iff at most one task in 200 is pending (200 * pending <= total), so 100% can show before everything is done |
| Stats.ToggleShiftsCompleted | script.js:215-220 | a toggle keeps the total and moves the completed count by one in the direction of the flip, or not at all when no task matches |
| View.NormalizeQuery | script.js:93 | the query is the lower-cased input with its white-space padding removed: it sits in the lower-cased input with only white space before and after it, is trimmed, holds no upper-case ASCII letter, and is empty iff the input is all white space |
| View.LowerIdempotent | script.js:93 | lower-casing twice is lower-casing once |
| View.QueryIgnoresCase | script.js:93 | inputs that agree once lower-cased give the same query, and lower-casing the input first changes nothing, so the search ignores ASCII case |
| View.QueryExample | script.js:93 | typing ` MILK ` searches for `milk` |
| View.VisibleTasks | script.js:335-339 | the view is an order-preserving subsequence of the list; every shown task passes the mode test and has the query as a substring of its lower-cased title or non-empty lower-cased location; every task value passing both tests is shown |
| View.VisibleEntrywise | script.js:335-339 | the view distributes over concatenation and shows a single task iff it passes both tests |
| View.EmptyQueryShowsAll | script.js:336-337 | with an empty query and a mode other than `active` and `completed` the view is the whole list |
| View.ModesPartition | script.js:336 | the `active` and `completed` views together are exactly as large as the `all` view, for every query |
| Export.ExportRecord | script.js:300 | an exported record is the saved record with the `photo` entry removed |
| Export.ExportJson | script.js:299-302 | one record per task in list order; each lacks `photo` and carries every other saved field of its task unchanged |
| Export.ExportForgetsOnlyPhoto | script.js:300 | two tasks export to the same record iff they agree on every field except the photo |
| Export.TxtLineShape | script.js:289-293 | a text line starts with its number and `. [`; the box holds `X` iff the task is done; then come `] [`, the category (`Gen` when empty), `] ` and the title; the line ends with ` (@ time)` only when the time is non-empty and with ` in location` only when the location is non-empty, the time first; the last character is the line break, the only one when the shown fields have none |
| Export.TxtBodyConcat | script.js:289-290 | line numbering continues across a split of the list |
| Export.LinesIndex | script.js:289-290 | the line list has one entry per task, and entry `i` is the text line of task `i` numbered from the start number plus `i` |
| Export.LinesConcat | script.js:289-290 | the line list of a split list is the first part's lines followed by the second part's, numbered on from where the first part stops |
| Export.BodyIsJoin | script.js:289-294 | the body built line by line is the line list joined in order |
| Export.TxtLineCount | script.js:287-294 | with newline-free fields the text has exactly two header lines plus one line per task |
| Export.ExportTxt | script.js:287-294 | the text starts with the report header and is the header followed by the text line of each task `i`, numbered `i + 1`, in list order |
| Image.TargetWidth | script.js:141-143 | the canvas width is at most 800 and at most the image width, equal to the image width iff that is at most 800 |
| Image.TargetHeight | script.js:142-144 | an image at most 800 wide keeps its height |
| Image.AspectRatioKept | script.js:142-144 | scaling keeps the aspect ratio: new height times old width equals old height times new width |
| Text.Trim | script.js:156 | the result sits in the input with only white space before and after it, has no white space at either end, is no longer than the input, and is empty iff the input is all white space |
| Text.LowerChar | script.js:93 | `A`-`Z` map to `a`-`z` with the same offset, every other character is kept, and no upper-case ASCII letter remains |
| Text.TrimPadding | script.js:156 | trimming white-space padding around a trimmed core gives back that core, which fixes the result of `trim` for every input |
| Text.TrimIdempotent | script.js:156 | trimming twice is trimming once |
| Text.Includes | script.js:337 | `includes` holds iff the query occurs in the string as a contiguous block |
| Text.NatToString | script.js:290 | the decimal rendering is non-empty, all digits, starts with `0` only when it is `0`, and reads back as the number |
| Seqs.Filter | script.js:335-339 | the result is an order-preserving subsequence holding every value that passes and no other value, and it is the whole input iff every element passes |
| Seqs.FilterMultiset | script.js:335-339 | a passing value occurs in the result exactly as often as in the input, and a failing one not at all |

## Left out

- Storage I/O: reading and writing `localStorage`, JSON text parsing and printing, and the "storage full" alert of `save`. Load starts from the parsed value (or its absence or a parse error); save is represented by the record shape it writes.
- The image pipeline itself: `FileReader`, image decoding, canvas drawing and JPEG encoding. Its outcome is the `Attachment` parameter of add.
- Image.TargetHeight: the height uses exact real arithmetic; the source computes it in floating point, and the canvas truncates it to an integer.
- Stats.RoundPercent: uses exact arithmetic; the source divides and multiplies in floating point, so for 29 of 200 it computes 14.499999999999998 and shows 14 where the model says 15.
- Store.LoadTasks: keeps raw parsed values, as the source does. A hand-edited stored entry whose `title` is, say, a number passes the filter but is not a `Task` in this model. The other operations take well-typed tasks.
- All DOM work: building the markup of `render`, the empty-state placeholder, `escapeHtml`, event binding, the filter-tag highlight, the file label, the 2 MiB big-file alert, `viewPhoto` and the form reset after add.
- Animation, tilt, confetti, sounds and the 500 ms delay before the celebration. The celebration is the boolean `ToggleAndCheck` returns.
- `deleteTask` runs its filter in an animation-completion callback; the model applies it directly.
- PDF and spreadsheet export: they hand the list to libraries that are not part of this model.
- Id generation (`Date.now()`) and timestamp formatting: ids and timestamps are parameters, and `createdAt` is the stored string form.
- Non-ASCII case mapping: `toLowerCase` also lower-cases letters such as É to é; `Text.Lower` maps only the ASCII letters A-Z and keeps every other character.
- JSON numbers are reals; only their truthiness matters here.
