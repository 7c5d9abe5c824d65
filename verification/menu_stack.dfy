/** The menu list (`menu_list_t`): the stack of open menu levels and the
    selection buffer of the current level, with the stack operations
    `menu_list_push`, `menu_list_pop_stack` and `menu_list_flush_stack`. */
module MenuStack {
  import opened Wrappers
  import opened CString
  import opened FileList
  import opened RefreshFlags

  datatype MenuList = MenuList(stack: List, selection: List)

  /** `menu_list_get_stack_size`: 0 for a missing menu list. */
  function StackSize(menu: Option<MenuList>): nat
  {
    if menu.None? then 0 else |menu.value.stack|
  }

  /** `menu_list_get_size`: the selection buffer's size, 0 for a missing
      menu list. */
  function Size(menu: Option<MenuList>): nat
  {
    if menu.None? then 0 else |menu.value.selection|
  }

  /** `menu_list_push`: appends one record to `list` unless the list or the
      label is missing. The new record has no display override. */
  function Push(list: Option<List>, path: CStr, name: Option<CStr>, entryType: nat,
                directoryPtr: nat, entryIdx: nat): (r: Option<List>)
    ensures list.None? || name.None? ==> r == list
    ensures list.Some? && name.Some? ==>
      && r.Some?
      && |r.value| == |list.value| + 1
      && r.value[..|list.value|] == list.value
      && Top(r.value) == Some(Entry(path, name.value, entryType, directoryPtr, entryIdx, None))
  {
    if list.None? || name.None? then list
    else Some(list.value + [Entry(path, name.value, entryType, directoryPtr, entryIdx, None)])
  }

  /** What `menu_list_pop_stack` returns and leaves behind: its success
      flag, the menu list, the refresh flags and the caller's
      `directory_ptr`. */
  datatype PopResult = PopResult(popped: bool, menu: Option<MenuList>, flags: Flags, directoryPtr: nat)

  /** `menu_list_pop_stack`: refuses (false, nothing changed) on a missing
      menu list or a stack of at most one level, so the root is never
      popped; otherwise removes exactly the top level, hands back the
      selection it saved, and raises the blocking refresh flag. */
  function PopStack(menu: Option<MenuList>, flags: Flags, directoryPtr: nat): (r: PopResult)
    ensures !r.popped <==> StackSize(menu) <= 1
    ensures !r.popped ==> r == PopResult(false, menu, flags, directoryPtr)
    ensures r.popped ==>
      && r.menu.Some?
      && r.menu.value.selection == menu.value.selection
      && r.menu.value.stack == menu.value.stack[..|menu.value.stack| - 1]
      && r.directoryPtr == menu.value.stack[|menu.value.stack| - 1].directoryPtr
      && r.flags.needRefresh
      && r.flags.nonblockingRefresh == flags.nonblockingRefresh
  {
    if menu.None? || |menu.value.stack| <= 1 then PopResult(false, menu, flags, directoryPtr)
    else
      var (stack', ptr') := Pop(menu.value.stack, directoryPtr);
      PopResult(true, Some(menu.value.(stack := stack')), SetRefresh(flags, false), ptr')
  }

  /** `menu_list_flush_stack_type` as a truth value: true while popping
      should go on. With a needle the top label must equal it; without
      one the top type must equal `finalType`. Comparing a needle against
      a missing label would pass NULL to `strcmp`, so callers must not. */
  predicate KeepPopping(needle: Option<CStr>, name: Option<CStr>, entryType: nat, finalType: nat)
    requires needle.Some? ==> name.Some?
  {
    if needle.Some? then needle.value != name.value else entryType != finalType
  }

  /** The flush test on a record sitting on top of the stack. */
  predicate EntryKeepsPopping(needle: Option<CStr>, finalType: nat, e: Entry)
  {
    KeepPopping(needle, Some(e.name), e.entryType, finalType)
  }

  /** The flush test on the current top of `stack`, read as
      `menu_list_get_last` leaves it: an empty stack reads as no label and
      type 0. */
  predicate TopKeepsPopping(needle: Option<CStr>, finalType: nat, stack: List)
    requires needle.Some? ==> |stack| > 0
  {
    match Top(stack)
    case None => KeepPopping(needle, None, 0, finalType)
    case Some(e) => EntryKeepsPopping(needle, finalType, e)
  }

  /** The stop test compares labels for exact equality (a label that merely
      starts with the needle does not stop the flush), and without a needle
      looks at the type alone. */
  lemma StopTestIsExactMatch(needle: CStr, name: CStr, suffix: CStr, entryType: nat, finalType: nat)
    ensures !KeepPopping(Some(needle), Some(name), entryType, finalType) <==> name == needle
    ensures |suffix| > 0 ==> KeepPopping(Some(needle), Some(needle + suffix), entryType, finalType)
    ensures !KeepPopping(None, Some(name), entryType, finalType) <==> entryType == finalType
    ensures KeepPopping(None, None, entryType, finalType) == KeepPopping(None, Some(name), entryType, finalType)
  {
  }

  /** `result` is a stage of flushing `stack`: a prefix of it, never
      emptier than one level when `stack` had one, and every record removed
      so far failed the stop test when it was on top. */
  predicate FlushProgress(stack: List, result: List, needle: Option<CStr>, finalType: nat)
  {
    && |result| <= |stack|
    && result == stack[..|result|]
    && (|stack| > 0 ==> |result| > 0)
    && (forall k :: |result| <= k < |stack| ==> EntryKeepsPopping(needle, finalType, stack[k]))
  }

  /** `result` is what flushing `stack` leaves: a stage of the flush whose
      top stops it, unless only the root remains. */
  predicate Flushed(stack: List, result: List, needle: Option<CStr>, finalType: nat)
  {
    && FlushProgress(stack, result, needle, finalType)
    && (|result| > 1 ==> !EntryKeepsPopping(needle, finalType, result[|result| - 1]))
  }

  /** Removing a top that fails the stop test, above the root, is one more
      stage of the flush. */
  lemma FlushProgressStep(stack: List, result: List, needle: Option<CStr>, finalType: nat)
    requires FlushProgress(stack, result, needle, finalType)
    requires |result| > 1 && EntryKeepsPopping(needle, finalType, result[|result| - 1])
    ensures FlushProgress(stack, result[..|result| - 1], needle, finalType)
  {
  }

  /** `menu_list_flush_stack`: pops levels until the top matches the
      needle (or, without one, has type `finalType`) or only the root is
      left. The blocking refresh flag is raised first; the selection
      cursor ends as the selection saved by the last level removed, or is
      left alone when nothing was removed. */
  method FlushStack(menu: Option<MenuList>, flags: Flags, cursor: nat, needle: Option<CStr>, finalType: nat)
    returns (menu': Option<MenuList>, flags': Flags, cursor': nat)
    requires needle.Some? && menu.Some? ==> |menu.value.stack| > 0
    ensures menu.None? ==> menu' == menu && flags' == flags && cursor' == cursor
    ensures menu.Some? ==> menu'.Some? && menu'.value.selection == menu.value.selection
    ensures menu.Some? ==> Flushed(menu.value.stack, menu'.value.stack, needle, finalType)
    ensures menu.Some? ==> flags' == SetRefresh(flags, false)
    ensures menu.Some? ==>
      cursor' == (if |menu'.value.stack| < |menu.value.stack|
                     then menu.value.stack[|menu'.value.stack|].directoryPtr
                     else cursor)
  {
    menu' := menu;
    flags' := flags;
    cursor' := cursor;
    if menu.None? {
      return;
    }
    var stack := menu.value.stack;
    flags' := SetRefresh(flags', false);
    var m := menu.value;
    assert stack[..|stack|] == stack;
    while TopKeepsPopping(needle, finalType, m.stack)
      invariant FlushProgress(stack, m.stack, needle, finalType)
      invariant m.selection == menu.value.selection
      invariant flags' == SetRefresh(flags, false)
      invariant cursor' == (if |m.stack| < |stack| then stack[|m.stack|].directoryPtr else cursor)
      decreases |m.stack|
    {
      var r := PopStack(Some(m), flags', cursor');
      if !r.popped {
        break;
      }
      FlushProgressStep(stack, m.stack, needle, finalType);
      m := r.menu.value;
      flags' := r.flags;
      cursor' := r.directoryPtr;
    }
    menu' := Some(m);
  }

  /** Popping right after a push undoes it: the stack is back as it was,
      the pushed record's saved selection is handed back, and a refresh
      is pending. */
  lemma PushThenPop(menu: MenuList, flags: Flags, directoryPtr: nat, path: CStr, name: CStr,
                    entryType: nat, savedPtr: nat, entryIdx: nat)
    requires |menu.stack| > 0
    ensures var pushed := Push(Some(menu.stack), path, Some(name), entryType, savedPtr, entryIdx).value;
      PopStack(Some(menu.(stack := pushed)), flags, directoryPtr)
        == PopResult(true, Some(menu), SetRefresh(flags, false), savedPtr)
  {
  }

  /** The description `Flushed` pins the flush result down: two results
      that both meet it are the same stack. */
  lemma FlushedUnique(stack: List, a: List, b: List, needle: Option<CStr>, finalType: nat)
    requires Flushed(stack, a, needle, finalType)
    requires Flushed(stack, b, needle, finalType)
    ensures a == b
  {
  }

  /** Flushing is idempotent: flushing an already flushed stack with the
      same needle and type removes nothing more. */
  lemma FlushIdempotent(stack: List, once: List, twice: List, needle: Option<CStr>, finalType: nat)
    requires Flushed(stack, once, needle, finalType)
    requires Flushed(once, twice, needle, finalType)
    ensures twice == once
  {
  }

  /** A worked case, labels spelled out as their ASCII bytes: flushing the
      stack "Root", "Options", "Settings", "Video" towards the needle
      "Settings" removes "Video" only; with `FlushedUnique` this is
      the one stack `FlushStack` can leave. */
  lemma FlushExample(finalType: nat)
    ensures
      var root: CStr := [82, 111, 111, 116];
      var options: CStr := [79, 112, 116, 105, 111, 110, 115];
      var settings: CStr := [83, 101, 116, 116, 105, 110, 103, 115];
      var video: CStr := [86, 105, 100, 101, 111];
      var stack := [Entry(root, root, 0, 0, 0, None), Entry(options, options, 0, 3, 0, None),
                    Entry(settings, settings, 0, 5, 0, None), Entry(video, video, 0, 7, 0, None)];
      Flushed(stack, stack[..3], Some(settings), finalType)
      && !Flushed(stack, stack[..2], Some(settings), finalType)
  {
  }
}
