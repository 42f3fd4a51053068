/** Which entry a merge keeps for a sequence, and merging a page again
    (web/src/chat-timeline.ts). */
module TimelineMerge {
  import opened Timeline
  import opened TimelineWindow

  // -------------------------------------------------- the offers of a sequence

  function WithSequence(entries: seq<Published>, k: nat): seq<Published> {
    if entries == [] then []
    else
      var init, last := WithSequence(entries[..|entries| - 1], k), entries[|entries| - 1];
      if last.sequence == k then init + [last] else init
  }

  /** What is offered for a sequence: the entry held, then the incoming ones. */
  function Offers(current: seq<Published>, incoming: seq<Published>, k: nat): seq<Published> {
    (if k in Indexed(current) then [Indexed(current)[k]] else []) + WithSequence(incoming, k)
  }

  /** The offers from `i` up to `j` are forms of one run: no other kind between. */
  ghost predicate FormsFrom(offers: seq<Published>, i: nat, j: nat)
    requires i <= j < |offers|
  {
    forall m :: i <= m <= j ==> offers[m].Form?
  }

  /** The offer that stands: newer than every later one, and not older than any
      form since the last offer of another kind. */
  ghost predicate Stands(offers: seq<Published>, j: nat) {
    && j < |offers|
    && (forall i :: j < i < |offers| ==> Newer(offers[j], offers[i]))
    && (forall i :: 0 <= i < j && FormsFrom(offers, i, j) ==> !Newer(offers[i], offers[j]))
  }

  /** At most one offer stands. */
  lemma StandsUnique(offers: seq<Published>, i: nat, j: nat)
    requires Stands(offers, i) && Stands(offers, j)
    ensures i == j
  {
    var a, b := if i < j then i else j, if i < j then j else i;
    if a < b {
      assert Newer(offers[a], offers[b]);
      assert forall m :: a < m <= b ==> Newer(offers[a], offers[m]);
      assert FormsFrom(offers, a, b);
    }
  }

  function Winner(offers: seq<Published>): Published
    requires offers != []
  {
    var last := offers[|offers| - 1];
    if |offers| == 1 then last
    else var held := Winner(offers[..|offers| - 1]); if Newer(held, last) then held else last
  }

  lemma {:induction false} WinnerStands(offers: seq<Published>) returns (j: nat)
    requires offers != []
    ensures Stands(offers, j) && offers[j] == Winner(offers)
  {
    var init, n := offers[..|offers| - 1], |offers| - 1;
    j := n;
    if n > 0 {
      var held := WinnerStands(init);
      assert offers[held] == init[held];
      if Newer(init[held], offers[n]) {
        j := held;
        forall i | 0 <= i < j && FormsFrom(offers, i, j) ensures !Newer(offers[i], offers[j]) {
          assert forall m :: i <= m <= j ==> init[m] == offers[m];
          assert FormsFrom(init, i, j);
        }
      } else {
        forall i | 0 <= i < n && FormsFrom(offers, i, n) ensures !Newer(offers[i], offers[n]) {
          NotNewerThanHeld(init, held, i);
        }
      }
    }
  }

  /** Of a run of forms to the end, none is newer than the one that stands. */
  lemma NotNewerThanHeld(offers: seq<Published>, held: nat, i: nat)
    requires Stands(offers, held) && i < |offers| && FormsFrom(offers, i, |offers| - 1)
    ensures offers[held].Form? && !Newer(offers[i], offers[held])
  {
    if i < held {
      assert FormsFrom(offers, i, held);
    } else if held < i {
      assert Newer(offers[held], offers[i]);
    }
  }

  lemma {:induction false} MergedIsWinner(current: seq<Published>, incoming: seq<Published>, k: nat)
    ensures k in Merged(current, incoming) <==> Offers(current, incoming, k) != []
    ensures k in Merged(current, incoming) ==> Merged(current, incoming)[k] == Winner(Offers(current, incoming, k))
  {
    if incoming != [] {
      var init, e := incoming[..|incoming| - 1], incoming[|incoming| - 1];
      MergedIsWinner(current, init, k);
      if e.sequence == k {
        assert Offers(current, incoming, k) == Offers(current, init, k) + [e];
        assert (Offers(current, init, k) + [e])[..|Offers(current, init, k)|] == Offers(current, init, k);
      } else {
        assert Offers(current, incoming, k) == Offers(current, init, k);
      }
    }
  }

  /** A sequence is in the result exactly when it is offered, and its entry is the
      offer that stands. */
  lemma MergedExact(current: seq<Published>, incoming: seq<Published>, k: nat, j: nat)
    ensures k in Merged(current, incoming) <==> Offers(current, incoming, k) != []
    ensures Stands(Offers(current, incoming, k), j) ==>
      k in Merged(current, incoming) && Merged(current, incoming)[k] == Offers(current, incoming, k)[j]
  {
    MergedIsWinner(current, incoming, k);
    var offers := Offers(current, incoming, k);
    hide Offers, Merged;
    if Stands(offers, j) {
      var i := WinnerStands(offers);
      StandsUnique(offers, i, j);
    }
  }

  // ------------------------------------------------------------ merging again

  lemma {:induction false} IndexedLists(s: seq<Published>, m: BySequence)
    requires forall i :: 0 <= i < |s| ==> s[i].sequence in m && m[s[i].sequence] == s[i]
    ensures forall k :: k in Indexed(s) ==> k in m && Indexed(s)[k] == m[k]
    ensures forall i :: 0 <= i < |s| ==> s[i].sequence in Indexed(s)
  {
    if s != [] {
      IndexedLists(s[..|s| - 1], m);
      forall i | 0 <= i < |s| ensures s[i].sequence in Indexed(s) {
        if i < |s| - 1 { assert s[..|s| - 1][i] == s[i]; }
      }
    }
  }

  lemma IndexedAgain(s: seq<Published>, m: BySequence)
    requires ListsBySequence(s, m)
    ensures Indexed(s) == m
  {
    IndexedLists(s, m);
    forall k | k in m ensures k in Indexed(s) {
      var i :| 0 <= i < |s| && s[i] == m[k];
    }
  }

  /** The winner, put in the place of the entry held, stands again. */
  lemma WinnerAgain(held: seq<Published>, more: seq<Published>, j: nat)
    requires |held| <= 1 && Stands(held + more, j)
    ensures var w := (held + more)[j]; Winner([w] + more) == w
  {
    var offers, w := held + more, (held + more)[j];
    var again := [w] + more;
    var i := WinnerStands(again);
    var place := if j < |held| then 0 else j - |held| + 1;
    assert again[place] == w;
    assert forall m :: 1 <= m < |again| ==> again[m] == offers[|held| + m - 1];
    forall m | 0 <= m < place && FormsFrom(again, m, place) ensures !Newer(again[m], again[place]) {
      if m > 0 {
        var n := |held| + m - 1;
        assert forall x :: n <= x <= j ==> offers[x] == again[x - |held| + 1];
        assert FormsFrom(offers, n, j);
      }
    }
    assert Stands(again, place);
    StandsUnique(again, i, place);
  }

  lemma MergedTwiceAt(current: seq<Published>, incoming: seq<Published>, s: seq<Published>, k: nat)
    requires ListsBySequence(s, Merged(current, incoming))
    ensures k in Merged(s, incoming) <==> k in Merged(current, incoming)
    ensures k in Merged(s, incoming) ==> Merged(s, incoming)[k] == Merged(current, incoming)[k]
  {
    var m := Merged(current, incoming);
    IndexedAgain(s, m);
    MergedIsWinner(current, incoming, k);
    MergedIsWinner(s, incoming, k);
    hide Merged;
    if k in m {
      var held := if k in Indexed(current) then [Indexed(current)[k]] else [];
      var more := WithSequence(incoming, k);
      assert Offers(current, incoming, k) == held + more && Offers(s, incoming, k) == [m[k]] + more;
      hide Indexed, WithSequence, Offers;
      var j := WinnerStands(held + more);
      WinnerAgain(held, more, j);
    }
  }

  ghost predicate SameUpTo(s: seq<Published>, t: seq<Published>, n: nat)
    requires n <= |s| && n <= |t|
  {
    forall i :: 0 <= i < n ==> s[i] == t[i]
  }

  ghost predicate Sorted(s: seq<Published>, m: BySequence) { Ascending(s) && ListsBySequence(s, m) }

  /** An entry of one list in the other. */
  lemma FoundIn(s: seq<Published>, t: seq<Published>, m: BySequence, i: nat) returns (j: nat)
    requires Sorted(s, m) && Sorted(t, m) && i < |s|
    ensures j < |t| && t[j] == s[i]
  {
    assert m[s[i].sequence] == s[i] && s[i] in t;
    j :| 0 <= j < |t| && t[j] == s[i];
  }

  lemma SortedOrder(s: seq<Published>, m: BySequence, i: nat, j: nat)
    requires Sorted(s, m) && i < |s| && j < |s|
    ensures s[i].sequence <= s[j].sequence <==> i <= j
  {
    hide ListsBySequence;
  }

  lemma NotAfter(s: seq<Published>, t: seq<Published>, m: BySequence, n: nat)
    requires Sorted(s, m) && Sorted(t, m) && n < |s| && n < |t| && SameUpTo(s, t, n)
    ensures s[n].sequence <= t[n].sequence
  {
    hide Sorted;
    var i := FoundIn(t, s, m, n);
    if i < n { SortedOrder(t, m, n, i); }
    SortedOrder(s, m, n, i);
  }

  lemma {:induction false} SortedSoFar(s: seq<Published>, t: seq<Published>, m: BySequence, n: nat)
    requires Sorted(s, m) && Sorted(t, m) && n <= |s| && n <= |t|
    ensures SameUpTo(s, t, n)
  {
    hide Sorted;
    if n > 0 {
      SortedSoFar(s, t, m, n - 1);
      NotAfter(s, t, m, n - 1);
      NotAfter(t, s, m, n - 1);
      var i := FoundIn(t, s, m, n - 1);
      SortedOrder(s, m, i, n - 1);
      SortedOrder(s, m, n - 1, i);
    }
  }

  lemma NoneLeft(s: seq<Published>, t: seq<Published>, m: BySequence)
    requires Sorted(s, m) && Sorted(t, m) && |t| <= |s| && SameUpTo(s, t, |t|)
    ensures |s| == |t|
  {
    hide Sorted;
    if |s| > 0 {
      var j := FoundIn(s, t, m, |s| - 1);
      SortedOrder(s, m, |s| - 1, j);
    }
  }

  /** Ascending lists of the same entries are the same list. */
  lemma SortedSame(s: seq<Published>, t: seq<Published>, m: BySequence)
    requires Sorted(s, m) && Sorted(t, m)
    ensures s == t
  {
    hide Sorted;
    if |t| <= |s| {
      SortedSoFar(s, t, m, |t|);
      NoneLeft(s, t, m);
    } else {
      SortedSoFar(t, s, m, |s|);
      NoneLeft(t, s, m);
    }
  }

  /** Merging the same page a second time changes nothing. */
  lemma MergedTwice(current: seq<Published>, incoming: seq<Published>, s: seq<Published>, t: seq<Published>)
    requires Ascending(s) && ListsBySequence(s, Merged(current, incoming))
    requires Ascending(t) && ListsBySequence(t, Merged(s, incoming))
    ensures t == s
  {
    forall k
      ensures k in Merged(s, incoming) <==> k in Merged(current, incoming)
      ensures k in Merged(s, incoming) ==> Merged(s, incoming)[k] == Merged(current, incoming)[k]
    {
      MergedTwiceAt(current, incoming, s, k);
    }
    assert Merged(s, incoming) == Merged(current, incoming);
    SortedSame(s, t, Merged(current, incoming));
  }
}
