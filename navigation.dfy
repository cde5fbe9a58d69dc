/**
 * The two key-press transitions of `GameWindow::update` over
 * `current_image_index`: D advances, unless the current path is a key of
 * `image_requirements`; A retreats, with no such gate. Both wrap around the
 * ends of `image_paths`.
 */
module Navigation {

  /** Index after a D press: the next index, wrapping to 0, unless gated or out of range. */
  function AdvanceIndex(paths: seq<string>, requirements: map<string, string>, i: nat): (r: nat)
    ensures i < |paths| && paths[i] !in requirements ==>
              r == (if i == |paths| - 1 then 0 else i + 1)
    ensures !(i < |paths| && paths[i] !in requirements) ==> r == i
  {
    if i < |paths| && paths[i] !in requirements then (i + 1) % |paths| else i
  }

  /** Index after an A press: the previous index, wrapping to the last one. */
  function RetreatIndex(paths: seq<string>, i: nat): (r: nat)
    requires |paths| > 0
    ensures r < |paths|
    ensures i < |paths| ==> r == (if i == 0 then |paths| - 1 else i - 1)
  {
    (i + |paths| - 1) % |paths|
  }

  /** The index after `n` D presses. */
  function Advances(paths: seq<string>, requirements: map<string, string>, i: nat, n: nat): nat
  {
    if n == 0 then i else AdvanceIndex(paths, requirements, Advances(paths, requirements, i, n - 1))
  }

  /** The index after `n` A presses. */
  function Retreats(paths: seq<string>, i: nat, n: nat): nat
    requires |paths| > 0
  {
    if n == 0 then i else RetreatIndex(paths, Retreats(paths, i, n - 1))
  }

  /** No path of the list is gated, as with the empty map `GameWindow::new` sets. */
  predicate Ungated(paths: seq<string>, requirements: map<string, string>) {
    forall j :: 0 <= j < |paths| ==> paths[j] !in requirements
  }

  /** Both transitions keep an in-range index in range. */
  lemma IndexStaysInRange(paths: seq<string>, requirements: map<string, string>, i: nat)
    requires i < |paths|
    ensures AdvanceIndex(paths, requirements, i) < |paths|
    ensures RetreatIndex(paths, i) < |paths|
  {
  }

  /** A retreat undoes an ungated advance; after a gated one it is a plain retreat. */
  lemma AdvanceThenRetreat(paths: seq<string>, requirements: map<string, string>, i: nat)
    requires i < |paths|
    ensures paths[i] !in requirements ==>
              RetreatIndex(paths, AdvanceIndex(paths, requirements, i)) == i
    ensures paths[i] in requirements ==>
              RetreatIndex(paths, AdvanceIndex(paths, requirements, i)) == RetreatIndex(paths, i)
  {
  }

  /** An advance undoes a retreat unless the retreat landed on a gated path. */
  lemma RetreatThenAdvance(paths: seq<string>, requirements: map<string, string>, i: nat)
    requires i < |paths|
    ensures var j := RetreatIndex(paths, i);
            paths[j] !in requirements ==> AdvanceIndex(paths, requirements, j) == i
    ensures var j := RetreatIndex(paths, i);
            paths[j] in requirements ==> AdvanceIndex(paths, requirements, j) == j
  {
  }

  /** `m + n` advances are `m` advances followed by `n` more. */
  lemma {:induction false} AdvancesCompose(paths: seq<string>, requirements: map<string, string>, i: nat, m: nat, n: nat)
    ensures Advances(paths, requirements, i, m + n)
         == Advances(paths, requirements, Advances(paths, requirements, i, m), n)
  {
    if n > 0 {
      AdvancesCompose(paths, requirements, i, m, n - 1);
    }
  }

  /** With no gated path, advances that stay short of the end step one place each. */
  lemma {:induction false} AdvancesForward(paths: seq<string>, requirements: map<string, string>, i: nat, n: nat)
    requires i + n < |paths| && Ungated(paths, requirements)
    ensures Advances(paths, requirements, i, n) == i + n
  {
    if n > 0 {
      AdvancesForward(paths, requirements, i, n - 1);
    }
  }

  /** With no gated path, as many advances as images return to the start. */
  lemma AdvanceCycle(paths: seq<string>, requirements: map<string, string>, i: nat)
    requires i < |paths| && Ungated(paths, requirements)
    ensures Advances(paths, requirements, i, |paths|) == i
  {
    var last := |paths| - 1;
    AdvancesForward(paths, requirements, i, last - i);
    AdvancesCompose(paths, requirements, i, last - i, i + 1);
    AdvancesCompose(paths, requirements, last, 1, i);
    AdvancesForward(paths, requirements, 0, i);
  }

  /** `m + n` retreats are `m` retreats followed by `n` more. */
  lemma {:induction false} RetreatsCompose(paths: seq<string>, i: nat, m: nat, n: nat)
    requires |paths| > 0
    ensures Retreats(paths, i, m + n) == Retreats(paths, Retreats(paths, i, m), n)
  {
    if n > 0 {
      RetreatsCompose(paths, i, m, n - 1);
    }
  }

  /** Retreats that stay clear of index 0 step back one place each, gated paths or not. */
  lemma {:induction false} RetreatsBackward(paths: seq<string>, i: nat, n: nat)
    requires n <= i < |paths|
    ensures Retreats(paths, i, n) == i - n
  {
    if n > 0 {
      RetreatsBackward(paths, i, n - 1);
    }
  }

  /** As many retreats as images return to the start. */
  lemma RetreatCycle(paths: seq<string>, i: nat)
    requires i < |paths|
    ensures Retreats(paths, i, |paths|) == i
  {
    var last := |paths| - 1;
    RetreatsBackward(paths, i, i);
    RetreatsCompose(paths, i, i, last - i + 1);
    RetreatsCompose(paths, 0, 1, last - i);
    RetreatsBackward(paths, last, last - i);
  }

  /** On a gated path, no number of advances moves the index. */
  lemma {:induction false} GatedAdvancesStay(paths: seq<string>, requirements: map<string, string>, i: nat, n: nat)
    requires i < |paths| && paths[i] in requirements
    ensures Advances(paths, requirements, i, n) == i
  {
    if n > 0 {
      GatedAdvancesStay(paths, requirements, i, n - 1);
    }
  }
}
