/** The menu entries façade: the list refresh that keeps the selection
    cursor inside the selection buffer, and `menu_entries_show_back`. The
    navigation driver is replaced by the plain state it keeps. */
module Entries {
  import opened Wrappers
  import opened FileList
  import opened RefreshFlags
  import opened MenuStack
  import opened ScrollIndices

  /** The navigation state the menu code reads and writes: the selection
      cursor, the scroll-index set, the "scroll to selection" flag, and
      whether a clear with `pending_push` set has been requested. */
  datatype Nav = Nav(cursor: nat, scrollIndices: seq<nat>, scrollFlag: bool, cleared: bool)

  /** `menu_list_refresh(list)`. Nothing happens without a menu list, a
      list, or a readable selection (`selectionReadable`). Otherwise the
      scroll indices are rebuilt from `list`, and against the size of the
      menu list's selection buffer the cursor is pulled back onto the last
      entry (with the scroll flag raised) when it ran past the end, or a
      clear is requested when the buffer is empty. */
  function Refresh(menu: Option<MenuList>, list: Option<List>, nav: Nav, selectionReadable: bool): (r: Nav)
    ensures menu.None? || list.None? || !selectionReadable ==> r == nav
    ensures menu.Some? && list.Some? && selectionReadable ==>
      var size := |menu.value.selection|;
      && r.scrollIndices == BuildScrollIndices(list, nav.scrollIndices)
      && (size > 0 ==> r.cursor < size && r.cleared == nav.cleared)
      && (nav.cursor < size ==> r.cursor == nav.cursor && r.scrollFlag == nav.scrollFlag)
      && (0 < size <= nav.cursor ==> r.cursor == size - 1 && r.scrollFlag)
      && (size == 0 ==> r.cleared && r.cursor == nav.cursor && r.scrollFlag == nav.scrollFlag)
  {
    if menu.None? || list.None? || !selectionReadable then nav
    else
      var nav' := nav.(scrollIndices := BuildScrollIndices(list, nav.scrollIndices));
      var size := Size(menu);
      if nav.cursor >= size && size > 0 then nav'.(cursor := size - 1, scrollFlag := true)
      else if size == 0 then nav'.(cleared := true)
      else nav'
  }

  /** A second refresh of an unchanged menu changes nothing more. */
  lemma RefreshIdempotent(menu: Option<MenuList>, list: Option<List>, nav: Nav, selectionReadable: bool)
    ensures var once := Refresh(menu, list, nav, selectionReadable);
      Refresh(menu, list, once, selectionReadable) == once
  {
  }

  /** `menu_entries_show_back`: a Back button belongs on screen exactly when
      the root is not the only open level, that is exactly when popping a
      level would succeed. */
  function ShowBack(menu: Option<MenuList>): (r: bool)
    ensures r <==> StackSize(menu) > 1
    ensures forall flags: Flags, ptr: nat :: r <==> PopStack(menu, flags, ptr).popped
  {
    StackSize(menu) > 1
  }
}
