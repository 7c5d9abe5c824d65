/** Jump-to-letter scroll indices (`menu_list_build_scroll_indices`): the
    offsets of a list at which a new first-letter group, or the first file
    after a run of directories, begins. */
module ScrollIndices {
  import opened Wrappers
  import opened CString
  import opened FileList

  /** `menu_list_elem_get_first_char` on a display string: the lower-cased
      first character, with everything before 'a' lumped into 'a'-1 and
      everything after 'z' into 'z'+1. */
  function FirstCharKey(s: CStr): (r: int)
    ensures LowerA - 1 <= r <= LowerZ + 1
  {
    var c := ToLower(FirstCharValue(s));
    if c < LowerA then LowerA - 1
    else if c > LowerZ then LowerZ + 1
    else c
  }

  /** The key of a string by its raw first byte: lower-case letters keep
      their code, upper-case letters map to their lower-case code, every
      other byte below 'a' (and the bytes 128..255, negative as a signed
      `char`) to 'a'-1, the bytes after 'z' up to 127 to 'z'+1. */
  lemma FirstCharKeyByByte(s: CStr)
    ensures |s| == 0 ==> FirstCharKey(s) == LowerA - 1
    ensures |s| > 0 && LowerA <= s[0] as int <= LowerZ ==> FirstCharKey(s) == s[0] as int
    ensures |s| > 0 && UpperA <= s[0] as int <= UpperZ ==> FirstCharKey(s) == s[0] as int - UpperA + LowerA
    ensures |s| > 0 && s[0] as int < LowerA && !(UpperA <= s[0] as int <= UpperZ) ==> FirstCharKey(s) == LowerA - 1
    ensures |s| > 0 && LowerZ < s[0] as int < 128 ==> FirstCharKey(s) == LowerZ + 1
    ensures |s| > 0 && 128 <= s[0] as int ==> FirstCharKey(s) == LowerA - 1
  {
  }

  /** The grouping key of one entry. */
  function Key(e: Entry): int
  {
    FirstCharKey(Display(e))
  }

  /** The loop's test for offset `i`: the previous entry is a directory and
      this one is not, or the key strictly increases. */
  predicate StartsGroup(list: List, i: nat)
    requires 1 <= i < |list|
  {
    (IsDir(list[i - 1]) && !IsDir(list[i])) || Key(list[i]) > Key(list[i - 1])
  }

  /** The offsets the loop has recorded once it has examined offsets
      1 .. i-1, in the order it recorded them. */
  function GroupStartsBefore(list: List, i: nat): seq<nat>
    requires 1 <= i <= |list|
  {
    if i == 1 then []
    else GroupStartsBefore(list, i - 1) + (if StartsGroup(list, i - 1) then [i - 1] else [])
  }

  /** The offsets recorded before `i` lie in [1, i). */
  lemma {:induction false} GroupStartsRange(list: List, i: nat)
    requires 1 <= i <= |list|
    ensures forall k :: 0 <= k < |GroupStartsBefore(list, i)| ==> 1 <= GroupStartsBefore(list, i)[k] < i
  {
    if i > 1 {
      GroupStartsRange(list, i - 1);
    }
  }

  /** The offsets recorded before `i` are strictly increasing. */
  lemma {:induction false} GroupStartsSorted(list: List, i: nat)
    requires 1 <= i <= |list|
    ensures forall k, m :: 0 <= k < m < |GroupStartsBefore(list, i)| ==> GroupStartsBefore(list, i)[k] < GroupStartsBefore(list, i)[m]
  {
    if i > 1 {
      GroupStartsSorted(list, i - 1);
      GroupStartsRange(list, i - 1);
    }
  }

  /** An offset before `i` is recorded exactly when it starts a group. */
  lemma {:induction false} GroupStartsMembers(list: List, i: nat)
    requires 1 <= i <= |list|
    ensures forall j :: 1 <= j < i ==> (j in GroupStartsBefore(list, i) <==> StartsGroup(list, j))
  {
    if i > 1 {
      GroupStartsMembers(list, i - 1);
      GroupStartsRange(list, i - 1);
      assert i - 1 !in GroupStartsBefore(list, i - 1);
    }
  }

  /** The three facts together. */
  lemma GroupStartsFacts(list: List, i: nat)
    requires 1 <= i <= |list|
    ensures var r := GroupStartsBefore(list, i);
      && (forall k :: 0 <= k < |r| ==> 1 <= r[k] < i)
      && (forall k, m :: 0 <= k < m < |r| ==> r[k] < r[m])
      && (forall j :: 1 <= j < i ==> (j in r <==> StartsGroup(list, j)))
  {
    GroupStartsRange(list, i);
    GroupStartsSorted(list, i);
    GroupStartsMembers(list, i);
  }

  /** Framing strictly increasing offsets from [1, n) with 0 in front and
      n - 1 behind keeps them ordered and in range, and adds nothing else
      below n - 1. */
  lemma Bracketed(starts: seq<nat>, n: nat)
    requires n > 0
    requires forall k :: 0 <= k < |starts| ==> 1 <= starts[k] < n
    requires forall k, m :: 0 <= k < m < |starts| ==> starts[k] < starts[m]
    ensures var r := [0] + starts + [n - 1];
      && (forall k :: 0 <= k < |r| ==> r[k] < n)
      && (forall k, m :: 0 <= k < m < |r| ==> r[k] <= r[m])
      && (forall k, m :: 0 <= k < m < |r| - 1 ==> r[k] < r[m])
      && (forall j :: 1 <= j < n - 1 ==> (j in r <==> j in starts))
      && r[|r| - 2] == (if |starts| == 0 then 0 else starts[|starts| - 1])
  {
    var r := [0] + starts + [n - 1];
    assert forall k :: 1 <= k < |r| - 1 ==> r[k] == starts[k - 1];
  }

  /** In a strictly increasing sequence below `n`, `n - 1` occurs exactly
      when it is the last element. */
  lemma LastIsBound(s: seq<nat>, n: nat)
    requires forall k :: 0 <= k < |s| ==> s[k] < n
    requires forall k, m :: 0 <= k < m < |s| ==> s[k] < s[m]
    ensures (|s| > 0 && s[|s| - 1] == n - 1) <==> n - 1 in s
  {
    if n - 1 in s {
      var k :| 0 <= k < |s| && s[k] == n - 1;
      assert k == |s| - 1;
    }
  }

  /** The loop records the last offset itself exactly when the last entry
      starts a group. */
  lemma LastStartRecorded(list: List)
    requires |list| > 0
    ensures var starts := GroupStartsBefore(list, |list|);
      |list| > 1 ==> ((|starts| > 0 && starts[|starts| - 1] == |list| - 1) <==> StartsGroup(list, |list| - 1))
  {
    if |list| > 1 {
      var starts := GroupStartsBefore(list, |list|);
      GroupStartsFacts(list, |list|);
      LastIsBound(starts, |list|);
      assert |list| - 1 in starts <==> StartsGroup(list, |list| - 1);
    }
  }

  /** The rebuilt set of a non-empty list: 0, the group starts the loop
      finds, then the last offset. */
  function Framed(list: List): seq<nat>
    requires |list| > 0
  {
    [0] + GroupStartsBefore(list, |list|) + [|list| - 1]
  }

  /** `r` starts with 0, ends with the last offset of `list`, and stays
      inside the list. */
  predicate ScrollBounds(list: List, r: seq<nat>)
  {
    && |list| > 0
    && |r| >= 2
    && r[0] == 0
    && r[|r| - 1] == |list| - 1
    && (forall k :: 0 <= k < |r| ==> r[k] < |list|)
  }

  /** `r` never decreases and increases strictly up to its last element. */
  predicate ScrollOrdered(r: seq<nat>)
  {
    && (forall k, m :: 0 <= k < m < |r| ==> r[k] <= r[m])
    && (forall k, m :: 0 <= k < m < |r| - 1 ==> r[k] < r[m])
  }

  /** `r` holds each inner offset of `list` exactly when it starts a group. */
  predicate ScrollMembers(list: List, r: seq<nat>)
  {
    forall j :: 1 <= j < |list| - 1 ==> (j in r <==> StartsGroup(list, j))
  }

  /** `r` repeats the last offset exactly when `list` has one entry or its
      last entry starts a group of its own. */
  predicate ScrollLastRepeated(list: List, r: seq<nat>)
    requires |list| > 0 && |r| >= 2
  {
    r[|r| - 2] == r[|r| - 1] <==> |list| == 1 || StartsGroup(list, |list| - 1)
  }

  /** What the rebuilt scroll-index set `r` of a non-empty `list` looks
      like: all four properties above. */
  predicate ScrollShape(list: List, r: seq<nat>)
  {
    && ScrollBounds(list, r)
    && ScrollOrdered(r)
    && ScrollMembers(list, r)
    && ScrollLastRepeated(list, r)
  }

  lemma FramedBoundsAndOrder(list: List)
    requires |list| > 0
    ensures ScrollBounds(list, Framed(list)) && ScrollOrdered(Framed(list))
  {
    GroupStartsFacts(list, |list|);
    Bracketed(GroupStartsBefore(list, |list|), |list|);
  }

  lemma FramedMembers(list: List)
    requires |list| > 0
    ensures ScrollMembers(list, Framed(list))
  {
    var starts := GroupStartsBefore(list, |list|);
    GroupStartsFacts(list, |list|);
    Bracketed(starts, |list|);
    forall j | 1 <= j < |list| - 1
      ensures j in Framed(list) <==> StartsGroup(list, j)
    {
      assert j in Framed(list) <==> j in starts;
    }
  }

  lemma FramedLastRepeated(list: List)
    requires |list| > 0
    ensures |Framed(list)| >= 2 && ScrollLastRepeated(list, Framed(list))
  {
    var starts := GroupStartsBefore(list, |list|);
    GroupStartsFacts(list, |list|);
    Bracketed(starts, |list|);
    LastStartRecorded(list);
  }

  /** The framed group starts have every property of `ScrollShape`. */
  lemma FramedShape(list: List)
    requires |list| > 0
    ensures ScrollShape(list, Framed(list))
  {
    FramedBoundsAndOrder(list);
    FramedMembers(list);
    FramedLastRepeated(list);
  }

  /** The scroll-index set after `menu_list_build_scroll_indices(list)`,
      given the set `prior` held before. A missing or empty list leaves
      `prior` untouched; otherwise the set is rebuilt from scratch, so it
      no longer depends on `prior`, and has the shape `ScrollShape`
      describes. */
  function BuildScrollIndices(list: Option<List>, prior: seq<nat>): (r: seq<nat>)
    ensures list.None? || |list.value| == 0 ==> r == prior
    ensures list.Some? && |list.value| > 0 ==> ScrollShape(list.value, r)
  {
    if list.None? || |list.value| == 0 then prior
    else
      FramedShape(list.value);
      Framed(list.value)
  }

  /** The scan of the C loop over offsets 1 .. n-1: it carries the previous
      entry's key and directory flag instead of looking back, and records
      exactly the group starts. */
  method ScanGroupStarts(l: List) returns (starts: seq<nat>)
    requires |l| > 0
    ensures starts == GroupStartsBefore(l, |l|)
  {
    starts := [];
    var current := Key(l[0]);
    var currentIsDir := IsDir(l[0]);
    var i := 1;
    while i < |l|
      invariant 1 <= i <= |l|
      invariant current == Key(l[i - 1])
      invariant currentIsDir == IsDir(l[i - 1])
      invariant starts == GroupStartsBefore(l, i)
      decreases |l| - i
    {
      var first := Key(l[i]);
      var isDir := IsDir(l[i]);
      if (currentIsDir && !isDir) || first > current {
        starts := starts + [i];
      }
      current := first;
      currentIsDir := isDir;
      i := i + 1;
    }
  }

  /** The builder as the C code runs it: nothing on a missing or empty
      list, otherwise 0, the scan, and the last offset. */
  method BuildScrollIndicesLoop(list: Option<List>, prior: seq<nat>) returns (r: seq<nat>)
    ensures r == BuildScrollIndices(list, prior)
  {
    if list.None? || |list.value| == 0 {
      return prior;
    }
    var l := list.value;
    var starts := ScanGroupStarts(l);
    r := [0] + starts + [|l| - 1];
  }

  /** A worked case: "apple" (file), "Banana" (directory), "cherry" (file),
      "1x" (file). */
  function ExampleList(): List
  {
    var apple: CStr := [97, 112, 112, 108, 101];
    var banana: CStr := [66, 97, 110, 97, 110, 97];
    var cherry: CStr := [99, 104, 101, 114, 114, 121];
    var digits: CStr := [49, 120];
    [Entry(apple, apple, 0, 0, 0, None), Entry(banana, banana, DirectoryType, 0, 1, None),
     Entry(cherry, cherry, 0, 0, 2, None), Entry(digits, digits, 0, 0, 3, None)]
  }

  /** Offset 1 starts the 'b' group, offset 2 is the first file after a
      directory, and "1x" normalises to 'a'-1 and so starts nothing. */
  lemma ExampleGroups()
    ensures |ExampleList()| == 4
    ensures StartsGroup(ExampleList(), 1) && StartsGroup(ExampleList(), 2) && !StartsGroup(ExampleList(), 3)
  {
    var list := ExampleList();
    assert Key(list[0]) == 97 && Key(list[1]) == 98 && Key(list[2]) == 99 && Key(list[3]) == 96;
  }

  /** The worked case yields exactly [0, 1, 2, 3], whatever the prior set:
      the two group starts framed by 0 and the last offset. */
  lemma ScrollIndicesExample(prior: seq<nat>)
    ensures BuildScrollIndices(Some(ExampleList()), prior) == [0, 1, 2, 3]
  {
    var list := ExampleList();
    ExampleGroups();
    assert GroupStartsBefore(list, 2) == [1];
    assert GroupStartsBefore(list, 3) == [1, 2];
    assert GroupStartsBefore(list, 4) == [1, 2];
  }
}
