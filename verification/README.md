# Menu stack and selection list bookkeeping (RetroArch `menu/menu_entries.c`)

A Dafny model of the bookkeeping core of RetroArch's menu entries module:
the stack of open menu levels, the push guard, pop and flush of that stack,
the jump-to-letter scroll-index builder over the selection buffer, the
clamping of the selection cursor on refresh, the two refresh flags and the
"show Back button" predicate.

The process-wide singletons of the C code become explicit values:

- `FileList.Entry` is one `file_list_t` record (path, label, type tag,
  saved selection `directory_ptr`, entry index, optional display override);
  a flat list is a `seq<Entry>`. The label field is called `name` because
  `label` is a Dafny keyword.
- `MenuStack.MenuList` is `menu_list_t`: the stack and the selection buffer.
  A missing menu list (a NULL `menu_list_t *`) is `Option.None`.
- `RefreshFlags.Flags` holds `need_refresh` and `nonblocking_refresh`.
- `Entries.Nav` stands in for the navigation driver: the selection cursor,
  the scroll-index set, the "scroll to selection" flag, and whether a clear
  with `pending_push` set was requested.
- C strings are `seq<CChar>`, where `CChar` is a byte other than NUL. The
  first character of the empty string is therefore the terminator, 0.

Operations are pure functions returning the new state, except the two
loops of the source (`menu_list_build_scroll_indices` and
`menu_list_flush_stack`), which are methods with loop invariants. Every
operation has a partner: the scroll-index loop is proved equal to a
recursive reference definition, and inductive lemmas characterise each
offset that definition records; flush is proved to meet the `Flushed` description, which is shown
to determine its result and to be idempotent; pop undoes push; refresh is
idempotent; `ShowBack` holds exactly when a pop would succeed.

Two details of the code are easy to misread, and the model keeps both:

- `menu_list_refresh` reads the selection cursor before it rebuilds the
  scroll indices, and does nothing at all when the cursor cannot be read.
  It clamps against the size of the menu list's selection buffer, not
  against the size of the list it was given.
- The last offset is always added after the loop, even when the loop has
  just recorded it, so the set ends with `n - 1` twice exactly when the
  list has one entry or its last entry starts a group. In the four-entry
  list "apple" (file), "Banana" (directory), "cherry" (file), "1x" (file),
  offset 1 starts the 'b' group, offset 2 is the first file after a
  directory, and "1x" falls into the 'a'-1 group, so the builder records
  exactly `[0, 1, 2, 3]` (`ScrollIndicesExample`).

Assumptions about code outside `menu/menu_entries.c`, which is not part of
this model:

- `file_list_get_alt_at_offset` yields the display override when one is set
  and the path otherwise (`FileList.Display`).
- `file_list_pop` drops the last record and writes its saved
  `directory_ptr` into the caller's variable (`FileList.Pop`). On an empty
  list it is taken to change nothing; no modelled caller pops an empty
  list.
- `file_list_get_last` yields the last record of a non-empty list
  (`FileList.Top`).
- `file_list_push` stores no display override on a new record.
- The navigation driver appends on `ADD_SCROLL_INDEX` and empties the set
  on `CLEAR_SCROLL_INDICES`.
- Plain `char` is signed, as on x86 targets, so bytes 128..255 are read as
  negative values and normalise to 'a'-1. `tolower` is the "C" locale one.
- The value of `MENU_FILE_DIRECTORY` comes from menu.h; the model fixes it
  at 2 (`FileList.DirectoryType`) and no property depends on the value.

Helpers without a row of their own: `FileList.IsDir`
(`menu_list_elem_is_dir`, menu/menu_entries.c:278-286), `FileList.Display`,
`FileList.Top` (the record `file_list_get_last` reads),
`ScrollIndices.Key`, `ScrollIndices.StartsGroup` (the loop's test at
menu/menu_entries.c:336), `ScrollIndices.GroupStartsBefore` (the reference
definition the lemmas below characterise), `ScrollIndices.Framed` and the
four `Scroll*` predicates that `ScrollShape` combines, the proof steps
`ScrollIndices.Bracketed`, `LastIsBound` and the `Framed*` lemmas,
`ScrollIndices.ExampleList`, `MenuStack.KeepPopping`
(`menu_list_flush_stack_type`), `MenuStack.StackSize` and `MenuStack.Size`
(`menu_list_get_stack_size`, `menu_list_get_size`), `CString.ToLower`.

## Model

| member | source | states |
|---|---|---|
| CString.FirstCharValue | menu/menu_entries.c:304-305 | the first character read through a signed `char` is in [-128, 128), is 0 exactly for the empty string, and otherwise is the first byte itself or that byte minus 256, which with the range makes it the byte taken modulo 256 as a signed value |
| ScrollIndices.FirstCharKey | menu/menu_entries.c:298-314 | the key always lies in ['a'-1, 'z'+1] |
| ScrollIndices.FirstCharKeyByByte | menu/menu_entries.c:298-314 | by the raw first byte: lower-case letters keep their code, upper-case letters map to their lower-case code, the empty string and every other byte below 'a' (including bytes 128..255) map to 'a'-1, bytes after 'z' up to 127 map to 'z'+1 |
| ScrollIndices.GroupStartsRange | menu/menu_entries.c:331-341 | once the loop has examined offsets 1 .. i-1, every offset it has recorded lies in [1, i) |
| ScrollIndices.GroupStartsSorted | menu/menu_entries.c:331-341 | the offsets the loop records are strictly increasing |
| ScrollIndices.GroupStartsMembers | menu/menu_entries.c:331-341 | once the loop has examined offsets 1 .. i-1, it has recorded offset j < i exactly when entry j-1 is a directory and entry j is not, or key(j) > key(j-1) |
| ScrollIndices.GroupStartsFacts | menu/menu_entries.c:331-341 | the three facts above together: in range, strictly increasing, and exactly the group starts |
| ScrollIndices.LastStartRecorded | menu/menu_entries.c:331-345 | on a list of two or more entries, the loop's last recorded offset is n-1 exactly when the last entry starts a group |
| ScrollIndices.BuildScrollIndices | menu/menu_entries.c:316-346 | a missing or empty list leaves the prior scroll indices untouched; otherwise, whatever the prior set, the new set starts with 0, ends with n-1, lies in [0, n), is nondecreasing and strictly increasing up to its last element, holds each inner offset exactly when it starts a group, and ends with n-1 twice exactly when the list has one entry or its last entry starts a group |
| ScrollIndices.ScanGroupStarts | menu/menu_entries.c:328-341 | the single pass that carries the previous entry's key and directory flag records exactly the offsets of the look-back definition |
| ScrollIndices.BuildScrollIndicesLoop | menu/menu_entries.c:316-346 | the builder as the C code runs it (early return, 0, the scan, n-1) computes the set `BuildScrollIndices` describes |
| ScrollIndices.ExampleGroups | menu/menu_entries.c:298-341 | in the four-entry list, "Banana" after "apple" and the file "cherry" after the directory "Banana" start groups, and "1x" after "cherry" does not |
| ScrollIndices.ScrollIndicesExample | menu/menu_entries.c:316-346 | the four-entry list yields exactly [0, 1, 2, 3] whatever the prior set |
| FileList.TopPushPop | menu/menu_entries.c:153-161 | after appending a record, the last record is that record and popping gives back the list and the record's saved `directory_ptr`; popping a non-empty list removes exactly the record `Top` reads |
| FileList.Pop | menu/menu_entries.c:153-161 | popping a non-empty list removes exactly its last record and hands back that record's saved `directory_ptr` |
| MenuStack.Push | menu/menu_entries.c:228-255 | with a missing list or label nothing changes; otherwise the list grows by exactly one, earlier records are unchanged, and the new last record carries the given path, label, type, `directory_ptr` and entry index |
| MenuStack.PopStack | menu/menu_entries.c:163-177 | the pop fails exactly when the stack has at most one level (or the menu list is missing), and then nothing changes; otherwise exactly the top level is removed, the selection buffer is kept, its saved selection is handed back, `need_refresh` is raised and `nonblocking_refresh` kept |
| MenuStack.PushThenPop | menu/menu_entries.c:163-177 | popping right after a push on a non-empty stack restores the menu list, returns the pushed `directory_ptr` and leaves a refresh pending |
| MenuStack.StopTestIsExactMatch | menu/menu_entries.c:146-151 | with a needle the flush stops exactly on a label equal to it, and a label that only begins with the needle does not stop it; without a needle it stops exactly on the final type, whatever the label |
| MenuStack.FlushStack | menu/menu_entries.c:179-208 | without a menu list nothing changes; otherwise `need_refresh` is raised, the selection buffer is kept, the stack ends as a prefix of the original that is non-empty when the original was, its top stops the flush unless only the root remains, every removed level failed the stop test, and the cursor is the selection saved by the last removed level, or unchanged if none was removed |
| MenuStack.FlushedUnique | menu/menu_entries.c:193-207 | the flush description admits exactly one resulting stack |
| MenuStack.FlushIdempotent | menu/menu_entries.c:179-208 | flushing an already flushed stack with the same needle and type removes nothing |
| MenuStack.FlushExample | menu/menu_entries.c:179-208 | with labels spelled out byte by byte, flushing the stack "Root", "Options", "Settings", "Video" towards the needle "Settings" leaves "Root", "Options", "Settings" and not a shorter stack |
| Entries.Refresh | menu/menu_entries.c:355-380 | without a menu list, a list, or a readable cursor nothing changes; otherwise the scroll indices are rebuilt from the list, a non-empty selection buffer always ends with the cursor inside it, a cursor already inside is kept, a cursor past the end moves to the last entry with the scroll flag raised, and an empty buffer requests a clear with the cursor untouched |
| Entries.RefreshIdempotent | menu/menu_entries.c:355-380 | refreshing twice without changing the menu gives the same navigation state as refreshing once |
| Entries.ShowBack | menu/menu_entries.c:485-488 | a Back button is shown exactly when the stack has more than one level, which is exactly when a pop would succeed |
| RefreshFlags.NeedsRefresh | menu/menu_entries.c:541-550 | a refresh is needed exactly when `need_refresh` is set and `nonblocking_refresh` is not |
| RefreshFlags.SetRefresh | menu/menu_entries.c:552-562 | raises the flag selected by `nonblocking` and leaves the other unchanged |
| RefreshFlags.UnsetRefresh | menu/menu_entries.c:564-574 | lowers the flag selected by `nonblocking` and leaves the other unchanged |
| RefreshFlags.FlagTransitions | menu/menu_entries.c:541-574 | unset after set forgets the set, set after unset equals set, both are idempotent; after setting the nonblocking flag no refresh is needed, after setting the blocking one a refresh is needed exactly when no nonblocking one is pending |

## Left out

- The rendering driver hooks (`menu_driver_list_free`, `list_insert`, `list_clear`, `menu_driver_list_cache`, `menu_driver_list_set_selection`): foreign side effects the module does not interpret; they are no-ops here.
- `menu_cbs_init` and the per-entry callback bundles, with the allocation of the bundle in `menu_list_push`: dynamic dispatch into code outside this file. For the same reason `menu_entries_get` and `menu_entries_get_title` are not modelled; they only pass values through to those callbacks.
- `menu_entries_get_core_title`: depends on global configuration and system-info state, `menu_hash_to_str` and `snprintf` truncation.
- Allocation, initialisation and release (`menu_list_new`, `menu_list_free`, `menu_list_free_list`, `menu_entries_init`, `menu_entries_free`, `menu_entries_new_list`, `menu_entries_free_list`) and the settings tree: memory management with no state the model keeps.
- `menu_list_clear`, the alt-string accessors, `menu_entries_set_start` / `get_start` / `get_end` and the other pointer accessors: thin wrappers over `file_list_*` outside the modelled core.
- The internals of `file_list_*` and of the navigation driver (`menu_navigation_ctl`): file_list.c and the navigation code are not part of this model; the behaviour assumed of them is listed above. In particular a requested clear is only recorded (`Nav.cleared`); what it does to the cursor is not modelled.
- The global entries handle (`menu_entries_get_ptr`) is passed explicitly and is never missing, so the "no handle" branches of `menu_entries_needs_refresh`, `set_refresh` and `unset_refresh` are not modelled.
- MenuStack.Push: a NULL path is not modelled; paths are always present strings here, and the scroll-index builder would dereference a NULL path.
- MenuStack.FlushStack: requires a non-empty stack when a needle is given, because on an empty stack the C code would pass a NULL label to `strcmp`.
- `size_t` wrap-around: offsets and cursors are unbounded naturals; no modelled operation can overflow them (the only subtraction, `size - 1`, happens when the size is positive).
- `strlcpy` truncation into fixed-size buffers.
