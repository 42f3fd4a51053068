/** Sequences as sets, sequences without repeats, and what is picked out of one. */
module Sequences {
  function Elements<T>(s: seq<T>): set<T> { set x | x in s }

  ghost predicate Distinct<T>(s: seq<T>) {
    forall i, j :: 0 <= i < j < |s| ==> s[i] != s[j]
  }

  /** What is picked out of a sequence, in its order: everything wanted and nothing
      else. `at` says where it stood. */
  ghost predicate PicksAt<T(!new)>(all: seq<T>, picked: seq<T>, at: seq<nat>, wanted: T -> bool) {
    && |at| == |picked| && (forall i, j :: 0 <= i < j < |at| ==> at[i] < at[j])
    && (forall i :: 0 <= i < |at| ==> at[i] < |all| && picked[i] == all[at[i]])
    && (forall k :: 0 <= k < |all| ==> (wanted(all[k]) <==> k in at))
  }

  ghost predicate Picks<T(!new)>(all: seq<T>, picked: seq<T>, wanted: T -> bool) {
    exists at: seq<nat> :: PicksAt(all, picked, at, wanted)
  }

  lemma PicksNone<T(!new)>(wanted: T -> bool)
    ensures Picks([], [], wanted)
  {
    var at: seq<nat> := [];
    var none: seq<T> := [];
    assert PicksAt(none, none, at, wanted);
  }

  lemma PicksAtNext<T(!new)>(init: seq<T>, last: T, picked: seq<T>, at: seq<nat>, wanted: T -> bool)
    requires PicksAt(init, picked, at, wanted)
    ensures wanted(last) ==> PicksAt(init + [last], picked + [last], at + [|init|], wanted)
    ensures !wanted(last) ==> PicksAt(init + [last], picked, at, wanted)
  {
    var all := init + [last];
    forall i | 0 <= i < |at| ensures at[i] < |init| && all[at[i]] == picked[i] {}
    assert |init| !in at;
    forall k | 0 <= k < |all| ensures k in at + [|init|] <==> k in at || k == |init| {}
    forall k | 0 <= k < |init| ensures wanted(all[k]) <==> k in at { assert all[k] == init[k]; }
  }

  /** Going through the sequence and keeping what is wanted picks it. */
  lemma PicksNext<T(!new)>(all: seq<T>, picked: seq<T>, next: seq<T>, wanted: T -> bool)
    requires all != [] && Picks(all[..|all| - 1], picked, wanted)
    requires next == if wanted(all[|all| - 1]) then picked + [all[|all| - 1]] else picked
    ensures Picks(all, next, wanted)
  {
    var init, last := all[..|all| - 1], all[|all| - 1];
    var at: seq<nat> :| PicksAt(init, picked, at, wanted);
    PicksAtNext(init, last, picked, at, wanted);
    assert init + [last] == all;
    hide PicksAt;
  }
}
