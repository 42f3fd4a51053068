/** The bounded window of published entries (web/src/chat-timeline.ts). */
module TimelineWindow {
  import opened Timeline

  const MAX_ENTRIES := 400
  const MAX_BYTES := 2 * 1024 * 1024

  // ----------------------------------------------------------- mergeEntries

  type BySequence = map<nat, Published>

  /** A form already here that the incoming one must not replace. */
  predicate Newer(retained: Published, e: Published) {
    retained.Form? && e.Form?
    && (retained.revision > e.revision || (retained.revision == e.revision && !retained.open && e.open))
  }

  function Indexed(entries: seq<Published>): BySequence {
    if entries == [] then map[]
    else Indexed(entries[..|entries| - 1])[entries[|entries| - 1].sequence := entries[|entries| - 1]]
  }

  function Merged(current: seq<Published>, incoming: seq<Published>): BySequence {
    if incoming == [] then Indexed(current)
    else
      var m, e := Merged(current, incoming[..|incoming| - 1]), incoming[|incoming| - 1];
      if e.sequence in m && Newer(m[e.sequence], e) then m else m[e.sequence := e]
  }

  ghost predicate Ascending(s: seq<Published>) { forall i, j :: 0 <= i < j < |s| ==> s[i].sequence < s[j].sequence }

  ghost predicate ListsBySequence(s: seq<Published>, m: BySequence) {
    && (forall i :: 0 <= i < |s| ==> s[i].sequence in m && m[s[i].sequence] == s[i])
    && (forall k :: k in m ==> m[k] in s && m[k].sequence == k)
  }

  /** Put an entry in its place, over one with the same sequence. */
  method Place(s: seq<Published>, e: Published, ghost m: BySequence) returns (t: seq<Published>)
    requires Ascending(s) && ListsBySequence(s, m)
    ensures Ascending(t) && ListsBySequence(t, m[e.sequence := e])
  {
    var i := 0;
    while i < |s| && s[i].sequence < e.sequence
      invariant i <= |s| && forall k :: 0 <= k < i ==> s[k].sequence < e.sequence
    {
      i := i + 1;
    }
    var rest := if i < |s| && s[i].sequence == e.sequence then i + 1 else i;
    t := s[..i] + [e] + s[rest..];
    PlacedShape(s, e, i, rest);
    PlacedAscending(s, e, i, rest, t);
    PlacedLists(s, e, m, i, rest, t);
  }

  /** The entry at `i`, what was below it before, what was above it after. */
  ghost predicate Shape(s: seq<Published>, e: Published, i: nat, rest: nat, t: seq<Published>) {
    && i <= rest <= i + 1 && rest <= |s| && |t| == |s| + 1 + i - rest && t[i] == e
    && (forall k :: 0 <= k < i ==> s[k].sequence < e.sequence && t[k] == s[k])
    && (forall k :: rest <= k < |s| ==> e.sequence < s[k].sequence && t[k + 1 + i - rest] == s[k])
    && (i < rest ==> s[i].sequence == e.sequence)
  }

  lemma PlacedShape(s: seq<Published>, e: Published, i: nat, rest: nat)
    requires Ascending(s) && i <= |s| && (forall k :: 0 <= k < i ==> s[k].sequence < e.sequence)
    requires i == |s| || e.sequence <= s[i].sequence
    requires rest == if i < |s| && s[i].sequence == e.sequence then i + 1 else i
    ensures Shape(s, e, i, rest, s[..i] + [e] + s[rest..])
  {
    var t := s[..i] + [e] + s[rest..];
    forall k | rest <= k < |s| ensures e.sequence < s[k].sequence && t[k + 1 + i - rest] == s[k] {
      if i < k { assert s[i].sequence < s[k].sequence; }
    }
  }

  lemma PlacedAscending(s: seq<Published>, e: Published, i: nat, rest: nat, t: seq<Published>)
    requires Ascending(s) && Shape(s, e, i, rest, t)
    ensures Ascending(t)
  {
    forall a, b | 0 <= a < b < |t| ensures t[a].sequence < t[b].sequence {
      var back := rest - 1 - i;
      assert a > i ==> t[a] == s[a + back];
      assert b > i ==> t[b] == s[b + back];
    }
  }

  lemma PlacedLists(s: seq<Published>, e: Published, m: BySequence, i: nat, rest: nat, t: seq<Published>)
    requires ListsBySequence(s, m) && Shape(s, e, i, rest, t)
    ensures ListsBySequence(t, m[e.sequence := e])
  {
    var next := m[e.sequence := e];
    forall k | 0 <= k < |t| ensures t[k].sequence in next && next[t[k].sequence] == t[k] {
      assert k > i ==> t[k] == s[k + rest - 1 - i];
    }
    forall k | k in next ensures next[k] in t && next[k].sequence == k {
      if k != e.sequence {
        var j :| 0 <= j < |s| && s[j] == m[k];
        assert t[if j < i then j else j + 1 + i - rest] == s[j];
      }
    }
  }

  method MergeEntries(current: seq<Published>, incoming: seq<Published>) returns (merged: seq<Published>)
    ensures Ascending(merged) && ListsBySequence(merged, Merged(current, incoming))
  {
    hide Ascending, ListsBySequence;
    merged := [];
    assert Ascending([]) && ListsBySequence([], map[]) by { EmptyLists(); }
    ghost var m: BySequence := map[];
    for i := 0 to |current|
      invariant m == Indexed(current[..i]) && Ascending(merged) && ListsBySequence(merged, m)
    {
      assert current[..i + 1][..i] == current[..i];
      merged := Place(merged, current[i], m);
      m := m[current[i].sequence := current[i]];
    }
    assert current[..|current|] == current;
    for i := 0 to |incoming|
      invariant m == Merged(current, incoming[..i]) && Ascending(merged) && ListsBySequence(merged, m)
    {
      assert incoming[..i + 1][..i] == incoming[..i];
      var skip := Retains(merged, incoming[i], m);
      if !skip {
        merged := Place(merged, incoming[i], m);
        m := m[incoming[i].sequence := incoming[i]];
      }
    }
    assert incoming[..|incoming|] == incoming;
  }

  lemma EmptyLists()
    ensures Ascending([]) && ListsBySequence([], map[])
  {
  }

  method Retains(s: seq<Published>, e: Published, ghost m: BySequence) returns (skip: bool)
    requires ListsBySequence(s, m)
    ensures skip <==> e.sequence in m && Newer(m[e.sequence], e)
  {
    for i := 0 to |s|
      invariant forall k :: 0 <= k < i ==> s[k].sequence != e.sequence
    {
      if s[i].sequence == e.sequence { return Newer(s[i], e); }
    }
    skip := false;
  }

  /** A history page never sets a retained form back. */
  lemma {:induction false} FormNeverSetBack(current: seq<Published>, incoming: seq<Published>, k: nat)
    requires k in Indexed(current) && Indexed(current)[k].Form?
    requires forall i :: 0 <= i < |incoming| && incoming[i].sequence == k ==> incoming[i].Form?
    ensures k in Merged(current, incoming) && Merged(current, incoming)[k].Form?
    ensures var now, was := Merged(current, incoming)[k], Indexed(current)[k];
      was.revision <= now.revision && (was.revision == now.revision && !was.open ==> !now.open)
  {
    if incoming != [] { FormNeverSetBack(current, incoming[..|incoming| - 1], k); }
  }

  // ----------------------------------------------------------- boundEntries

  type Size = Published -> nat

  function Total(entries: seq<Published>, size: Size): nat {
    if entries == [] then 0 else Total(entries[..|entries| - 1], size) + size(entries[|entries| - 1])
  }

  function Reversed(s: seq<Published>): (r: seq<Published>)
    ensures |r| == |s| && forall i :: 0 <= i < |s| ==> r[i] == s[|s| - 1 - i]
  {
    seq(|s|, i requires 0 <= i < |s| => s[|s| - 1 - i])
  }

  /** As many as fit from the front: one more would exceed a bound. */
  ghost predicate FitsExactly(source: seq<Published>, size: Size, n: nat) {
    && n <= |source| && n <= MAX_ENTRIES && Total(source[..n], size) <= MAX_BYTES
    && (n < |source| ==> n == MAX_ENTRIES || Total(source[..n], size) + size(source[n]) > MAX_BYTES)
  }

  method TakeWhileFits(source: seq<Published>, size: Size) returns (n: nat)
    ensures FitsExactly(source, size, n)
  {
    n := 0;
    var bytes := 0;
    while n < |source|
      invariant n <= |source| && n <= MAX_ENTRIES && bytes == Total(source[..n], size) <= MAX_BYTES
    {
      assert source[..n + 1][..n] == source[..n];
      if n == MAX_ENTRIES || bytes + size(source[n]) > MAX_BYTES { return; }
      bytes := bytes + size(source[n]);
      n := n + 1;
    }
  }

  lemma LatestFits(entries: seq<Published>, size: Size, n: nat)
    requires FitsExactly(Reversed(entries), size, n)
    ensures n <= |entries| && Reversed(Reversed(entries)[..n]) == entries[|entries| - n..]
    ensures Total(entries[|entries| - n..], size) == Total(Reversed(entries)[..n], size)
  {
    hide Total;
    assert Reversed(entries[|entries| - n..]) == Reversed(entries)[..n];
    TotalReversed(entries[|entries| - n..], size);
  }

  /** The longest window from one end that respects both bounds, in order. */
  method BoundEntries(entries: seq<Published>, size: Size, latest: bool)
    returns (kept: seq<Published>, trimmed: bool, ghost n: nat)
    ensures n <= |entries| && kept == (if latest then entries[|entries| - n..] else entries[..n])
    ensures |kept| <= 400 && Total(kept, size) <= 2 * 1024 * 1024
    ensures trimmed <==> n < |entries|
    ensures trimmed && n < 400 ==>
      Total(kept, size) + size(if latest then entries[|entries| - n - 1] else entries[n]) > 2 * 1024 * 1024
  {
    var source := if latest then Reversed(entries) else entries;
    var m := TakeWhileFits(source, size);
    n := m;
    kept := source[..m];
    trimmed := |kept| != |entries|;
    if latest {
      LatestFits(entries, size, m);
      kept := Reversed(kept);
    }
    hide Total;
  }

  /** The bytes of a window do not depend on the end it was cut from. */
  lemma {:induction false} TotalReversed(s: seq<Published>, size: Size)
    ensures Total(Reversed(s), size) == Total(s, size)
  {
    if s != [] {
      var last := |s| - 1;
      TotalReversed(s[..last], size);
      assert Reversed(s) == [s[last]] + Reversed(s[..last]);
      TotalConcat([s[last]], Reversed(s[..last]), size);
      assert [s[last]][..0] == [];
    }
  }

  lemma {:induction false} TotalConcat(a: seq<Published>, b: seq<Published>, size: Size)
    ensures Total(a + b, size) == Total(a, size) + Total(b, size)
  {
    if b == [] {
      assert a + b == a;
    } else {
      TotalConcat(a, b[..|b| - 1], size);
      assert (a + b)[..|a + b| - 1] == a + b[..|b| - 1];
    }
  }
}
