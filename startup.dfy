/**
 * The start-up step of main.rs that prepares the seed list for `GameWindow`:
 * the walk of the pictures directory keeps the file paths that convert to
 * UTF-8 (the same filter `load_images_from_directory` applies), then the
 * first path is looked up with `position`, removed there and inserted again
 * at index 0.
 *
 * Since `position` finds the first occurrence and the first path occurs at
 * index 0, the remove/insert pair always acts at index 0 and leaves the list
 * exactly as the walk produced it; `ReinsertFirst` states this.
 */
module Startup {
  import opened Basics
  import opened Window

  /** `Vec::remove(i)`: the elements after `i` shift one place to the left. */
  function Removed(s: seq<string>, i: nat): (r: seq<string>)
    requires i < |s|
    ensures |r| == |s| - 1
    ensures forall j :: 0 <= j < i ==> r[j] == s[j]
    ensures forall j :: i <= j < |r| ==> r[j] == s[j + 1]
  {
    s[..i] + s[i + 1..]
  }

  /** `Vec::insert(i, x)`: the elements from `i` on shift one place to the right. */
  function Inserted(s: seq<string>, i: nat, x: string): (r: seq<string>)
    requires i <= |s|
    ensures |r| == |s| + 1
    ensures r[i] == x
    ensures forall j :: 0 <= j < i ==> r[j] == s[j]
    ensures forall j :: i < j < |r| ==> r[j] == s[j - 1]
  {
    s[..i] + [x] + s[i..]
  }

  /** Inserting the removed element back where it was restores the list. */
  lemma InsertRemoved(s: seq<string>, i: nat)
    requires i < |s|
    ensures Inserted(Removed(s, i), i, s[i]) == s
  {
    var r := Inserted(Removed(s, i), i, s[i]);
    assert forall j :: 0 <= j < |s| ==> r[j] == s[j];
  }

  /** Removing an element keeps every other element, with its multiplicity. */
  lemma RemovedPermutes(s: seq<string>, i: nat)
    requires i < |s|
    ensures multiset(Removed(s, i)) + multiset{s[i]} == multiset(s)
  {
    assert s == s[..i] + [s[i]] + s[i + 1..];
  }

  /** `Iterator::position`: the index of the first element equal to `target`. */
  method Position(paths: seq<string>, target: string) returns (pos: Option<nat>)
    ensures pos.Some? ==> pos.value < |paths| && paths[pos.value] == target
    ensures pos.Some? ==> forall j :: 0 <= j < pos.value ==> paths[j] != target
    ensures pos.None? <==> target !in paths
    ensures |paths| > 0 && paths[0] == target ==> pos == Some(0)
  {
    var i := 0;
    while i < |paths|
      invariant i <= |paths|
      invariant forall j :: 0 <= j < i ==> paths[j] != target
    {
      if paths[i] == target {
        return Some(i);
      }
      i := i + 1;
    }
    return None;
  }

  /**
   * The reinsertion of the first path: it finds the first path at index 0,
   * so the list comes back unchanged.
   */
  method ReinsertFirst(paths: seq<string>) returns (r: seq<string>)
    ensures r == paths
  {
    r := paths;
    if |r| > 0 {
      var first := r[0];
      var pos := Position(r, first);
      if pos.Some? {
        assert pos.value == 0;
        InsertRemoved(r, pos.value);
        r := Removed(r, pos.value);
        r := Inserted(r, 0, first);
      }
    }
  }

  /**
   * The seed list `main` hands to `GameWindow::new`: the UTF-8 file paths of
   * the walk, in walk order.
   */
  method SeedPaths(entries: seq<Option<string>>) returns (paths: seq<string>)
    ensures paths == Utf8Paths(entries)
    ensures forall p :: p in paths <==> Some(p) in entries
  {
    Utf8PathsMembers(entries);
    paths := ReinsertFirst(Utf8Paths(entries));
  }
}
