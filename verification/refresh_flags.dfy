/** The two sticky refresh flags of the menu entries handle and the
    operations on them (`menu_entries_needs_refresh`, `set_refresh`,
    `unset_refresh`). */
module RefreshFlags {

  /** `needRefresh` is the blocking flag; `nonblockingRefresh` marks a
      refresh that may be deferred and, while set, masks the other. */
  datatype Flags = Flags(needRefresh: bool, nonblockingRefresh: bool)

  /** `menu_entries_needs_refresh`. */
  function NeedsRefresh(f: Flags): (r: bool)
    ensures r <==> f.needRefresh && !f.nonblockingRefresh
  {
    if f.nonblockingRefresh then false
    else if f.needRefresh then true
    else false
  }

  /** `menu_entries_set_refresh`: raises the flag `nonblocking` selects and
      leaves the other alone. */
  function SetRefresh(f: Flags, nonblocking: bool): (r: Flags)
    ensures nonblocking ==> r.nonblockingRefresh && r.needRefresh == f.needRefresh
    ensures !nonblocking ==> r.needRefresh && r.nonblockingRefresh == f.nonblockingRefresh
  {
    if nonblocking then f.(nonblockingRefresh := true)
    else f.(needRefresh := true)
  }

  /** `menu_entries_unset_refresh`: lowers the flag `nonblocking` selects and
      leaves the other alone. */
  function UnsetRefresh(f: Flags, nonblocking: bool): (r: Flags)
    ensures nonblocking ==> !r.nonblockingRefresh && r.needRefresh == f.needRefresh
    ensures !nonblocking ==> !r.needRefresh && r.nonblockingRefresh == f.nonblockingRefresh
  {
    if nonblocking then f.(nonblockingRefresh := false)
    else f.(needRefresh := false)
  }

  /** How the three operations interact: setting then unsetting a flag
      forgets the set, both are idempotent, and a pending nonblocking
      refresh masks any blocking one. */
  lemma FlagTransitions(f: Flags, nonblocking: bool)
    ensures UnsetRefresh(SetRefresh(f, nonblocking), nonblocking) == UnsetRefresh(f, nonblocking)
    ensures SetRefresh(UnsetRefresh(f, nonblocking), nonblocking) == SetRefresh(f, nonblocking)
    ensures SetRefresh(SetRefresh(f, nonblocking), nonblocking) == SetRefresh(f, nonblocking)
    ensures UnsetRefresh(UnsetRefresh(f, nonblocking), nonblocking) == UnsetRefresh(f, nonblocking)
    ensures !NeedsRefresh(SetRefresh(f, true))
    ensures NeedsRefresh(SetRefresh(f, false)) <==> !f.nonblockingRefresh
    ensures NeedsRefresh(UnsetRefresh(f, true)) <==> f.needRefresh
    ensures !NeedsRefresh(UnsetRefresh(f, false))
  {
  }
}
