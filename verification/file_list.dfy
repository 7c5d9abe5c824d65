/** The flat entry list (`file_list_t`) as the menu code sees it: an ordered
    sequence of records with dense indices. Only the operations the menu
    code relies on are modelled. */
module FileList {
  import opened Wrappers
  import opened CString

  /** The type tag of a directory entry (`MENU_FILE_DIRECTORY`). Its numeric
      value lives in menu.h, which is not part of this model; no property
      here depends on it. */
  const DirectoryType: nat := 2

  /** One record: path, label (`name` here, since `label` is a Dafny
      keyword), type tag, the saved selection of the level below
      (`directory_ptr`), the associated index and the optional display
      override ("alt"). */
  datatype Entry = Entry(
    path: CStr,
    name: CStr,
    entryType: nat,
    directoryPtr: nat,
    entryIdx: nat,
    alt: Option<CStr>)

  type List = seq<Entry>

  /** `menu_list_elem_is_dir`. */
  predicate IsDir(e: Entry)
  {
    e.entryType == DirectoryType
  }

  /** The string `menu_list_get_alt_at_offset` hands back: the display
      override when one is set, otherwise the path. */
  function Display(e: Entry): CStr
  {
    if e.alt.Some? then e.alt.value else e.path
  }

  /** `file_list_get_last`: the top record, or nothing on an empty list. */
  function Top(list: List): (r: Option<Entry>)
    ensures r.None? <==> |list| == 0
    ensures r.Some? ==> r.value == list[|list| - 1]
  {
    if |list| == 0 then None else Some(list[|list| - 1])
  }

  /** The top record is the last one pushed, and popping hands back exactly
      the top record's saved selection and the records below it. */
  lemma TopPushPop(list: List, e: Entry, directoryPtr: nat)
    ensures Top(list + [e]) == Some(e)
    ensures |list| > 0 ==> Pop(list, directoryPtr).0 + [Top(list).value] == list
    ensures |list| > 0 ==> Pop(list, directoryPtr).1 == Top(list).value.directoryPtr
    ensures Pop(list + [e], directoryPtr) == (list, e.directoryPtr)
  {
    assert (list + [e])[..|list|] == list;
  }

  /** `file_list_pop`: drops the last record, if any, and writes the
      selection it saved into the caller's `directory_ptr`. */
  function Pop(list: List, directoryPtr: nat): (r: (List, nat))
    ensures |list| == 0 ==> r == (list, directoryPtr)
    ensures |list| > 0 ==> r.0 + [list[|list| - 1]] == list
    ensures |list| > 0 ==> r.1 == list[|list| - 1].directoryPtr
  {
    if |list| == 0 then (list, directoryPtr)
    else (list[..|list| - 1], list[|list| - 1].directoryPtr)
  }
}
