/**
  * The semantic token of the language server and the order `find_matches` sorts its
  * tokens into: by `delta_line`, then by `delta_start`, stably. The standard library's
  * `sort_by` is modelled by a stable insertion sort; `StableSortUnique` shows that any
  * stable sort by this comparator gives the same sequence.
  */
module TokenOrder {

  /** One token as `find_matches` returns it (five unsigned integers). */
  datatype SemanticToken = SemanticToken(
    deltaLine: nat,
    deltaStart: nat,
    length: nat,
    tokenType: nat,
    tokenModifiersBitset: nat)

  /** The sort key: `(delta_line, delta_start)`. */
  function Position(t: SemanticToken): (nat, nat)
  {
    (t.deltaLine, t.deltaStart)
  }

  /** The comparator of the sort: `delta_line`, then `delta_start`. */
  predicate PositionLe(a: SemanticToken, b: SemanticToken)
  {
    a.deltaLine < b.deltaLine || (a.deltaLine == b.deltaLine && a.deltaStart <= b.deltaStart)
  }

  predicate SortedByPosition(s: seq<SemanticToken>)
  {
    forall i, j :: 0 <= i < j < |s| ==> PositionLe(s[i], s[j])
  }

  /** The tokens of `s` whose key is `k`, in their order in `s`. */
  function WithPosition(s: seq<SemanticToken>, k: (nat, nat)): seq<SemanticToken>
  {
    if |s| == 0 then [] else (if Position(s[0]) == k then [s[0]] else []) + WithPosition(s[1..], k)
  }

  /** Puts `t` before the first token of `s` whose key is not smaller than its own. */
  function Insert(t: SemanticToken, s: seq<SemanticToken>): (r: seq<SemanticToken>)
    ensures |r| == |s| + 1
    ensures multiset(r) == multiset(s) + multiset{t}
  {
    if |s| == 0 || PositionLe(t, s[0]) then [t] + s
    else
      assert s == [s[0]] + s[1..];
      [s[0]] + Insert(t, s[1..])
  }

  /** A stable sort by `(delta_line, delta_start)`; it is a permutation of its input. */
  function SortByPosition(s: seq<SemanticToken>): (r: seq<SemanticToken>)
    ensures |r| == |s|
    ensures multiset(r) == multiset(s)
  {
    if |s| == 0 then []
    else
      assert s == [s[0]] + s[1..];
      Insert(s[0], SortByPosition(s[1..]))
  }

  lemma {:induction false} InsertSorted(t: SemanticToken, s: seq<SemanticToken>)
    requires SortedByPosition(s)
    ensures SortedByPosition(Insert(t, s))
  {
    if |s| > 0 && !PositionLe(t, s[0]) {
      var tail := Insert(t, s[1..]);
      InsertSorted(t, s[1..]);
      forall j | 0 <= j < |tail|
        ensures PositionLe(s[0], tail[j])
      {
        assert tail[j] in multiset(tail);
        if tail[j] != t {
          assert tail[j] in multiset(s[1..]);
          var k :| 0 <= k < |s[1..]| && s[1..][k] == tail[j];
          assert s[k + 1] == tail[j];
        }
      }
      assert Insert(t, s) == [s[0]] + tail;
    }
  }

  /** The result of the sort is non-decreasing in `(delta_line, delta_start)`. */
  lemma {:induction false} SortByPositionSorted(s: seq<SemanticToken>)
    ensures SortedByPosition(SortByPosition(s))
  {
    if |s| > 0 {
      SortByPositionSorted(s[1..]);
      InsertSorted(s[0], SortByPosition(s[1..]));
    }
  }

  lemma WithPositionCons(t: SemanticToken, s: seq<SemanticToken>, k: (nat, nat))
    ensures WithPosition([t] + s, k) == (if Position(t) == k then [t] else []) + WithPosition(s, k)
  {
    assert ([t] + s)[1..] == s;
  }

  lemma {:induction false} InsertWithPosition(t: SemanticToken, s: seq<SemanticToken>, k: (nat, nat))
    ensures WithPosition(Insert(t, s), k) == (if Position(t) == k then [t] else []) + WithPosition(s, k)
  {
    if |s| == 0 || PositionLe(t, s[0]) {
      WithPositionCons(t, s, k);
    } else {
      InsertWithPosition(t, s[1..], k);
      WithPositionCons(s[0], Insert(t, s[1..]), k);
    }
  }

  /** Stability: among tokens of equal key the sort keeps the order they were pushed in. */
  lemma {:induction false} SortByPositionStable(s: seq<SemanticToken>, k: (nat, nat))
    ensures WithPosition(SortByPosition(s), k) == WithPosition(s, k)
  {
    if |s| > 0 {
      SortByPositionStable(s[1..], k);
      InsertWithPosition(s[0], SortByPosition(s[1..]), k);
    }
  }

  lemma {:induction false} WithPositionMembers(s: seq<SemanticToken>, k: (nat, nat))
    ensures forall t :: t in WithPosition(s, k) ==> t in s && Position(t) == k
  {
    if |s| > 0 {
      WithPositionMembers(s[1..], k);
    }
  }

  lemma WithOwnPosition(s: seq<SemanticToken>)
    requires |s| > 0
    ensures WithPosition(s, Position(s[0])) != []
  {
  }

  /** Two sorted sequences holding, key by key, the same tokens start with the same token. */
  lemma SortedHeadsAgree(a: seq<SemanticToken>, b: seq<SemanticToken>)
    requires |a| > 0 && |b| > 0
    requires SortedByPosition(a) && SortedByPosition(b)
    requires forall k :: WithPosition(a, k) == WithPosition(b, k)
    ensures a[0] == b[0]
  {
    var ka, kb := Position(a[0]), Position(b[0]);
    WithOwnPosition(a);
    WithOwnPosition(b);
    WithPositionMembers(a, kb);
    WithPositionMembers(b, ka);
    assert WithPosition(b, ka)[0] == a[0];
    assert WithPosition(a, kb)[0] == b[0];
    assert PositionLe(b[0], a[0]) by {
      var j :| 0 <= j < |b| && b[j] == a[0];
    }
    assert PositionLe(a[0], b[0]) by {
      var j :| 0 <= j < |a| && a[j] == b[0];
    }
  }

  /** Dropping an equal first token keeps the key-by-key agreement. */
  lemma WithPositionTails(a: seq<SemanticToken>, b: seq<SemanticToken>)
    requires |a| > 0 && |b| > 0 && a[0] == b[0]
    requires forall k :: WithPosition(a, k) == WithPosition(b, k)
    ensures forall k :: WithPosition(a[1..], k) == WithPosition(b[1..], k)
  {
    forall k
      ensures WithPosition(a[1..], k) == WithPosition(b[1..], k)
    {
      var head := if Position(a[0]) == k then [a[0]] else [];
      assert WithPosition(a, k) == head + WithPosition(a[1..], k);
      assert WithPosition(b, k) == head + WithPosition(b[1..], k);
      assert WithPosition(a[1..], k) == (head + WithPosition(a[1..], k))[|head|..];
      assert WithPosition(b[1..], k) == (head + WithPosition(b[1..], k))[|head|..];
    }
  }

  /**
    * A stable sort is unique: two sorted sequences that agree, key by key, on the
    * tokens they hold and their order are equal.
    */
  lemma {:induction false} StableSortUnique(a: seq<SemanticToken>, b: seq<SemanticToken>)
    requires SortedByPosition(a) && SortedByPosition(b)
    requires forall k :: WithPosition(a, k) == WithPosition(b, k)
    ensures a == b
  {
    if |a| > 0 {
      WithOwnPosition(a);
    }
    if |b| > 0 {
      WithOwnPosition(b);
    }
    if |a| > 0 && |b| > 0 {
      SortedHeadsAgree(a, b);
      WithPositionTails(a, b);
      StableSortUnique(a[1..], b[1..]);
      assert a == [a[0]] + a[1..] && b == [b[0]] + b[1..];
    }
  }

  /**
    * Any sequence that is sorted and keeps, key by key, the tokens of `s` in their order
    * is `SortByPosition(s)` (the converse is `SortByPositionSorted` with
    * `SortByPositionStable`): whatever stable algorithm sorts, the result is this one.
    */
  lemma SortByPositionIsTheStableSort(s: seq<SemanticToken>, r: seq<SemanticToken>)
    requires SortedByPosition(r)
    requires forall k :: WithPosition(r, k) == WithPosition(s, k)
    ensures r == SortByPosition(s)
  {
    var sorted := SortByPosition(s);
    SortByPositionSorted(s);
    forall k ensures WithPosition(r, k) == WithPosition(sorted, k) {
      SortByPositionStable(s, k);
    }
    StableSortUnique(r, sorted);
  }

  /** The sort neither adds nor drops a token. */
  lemma SortByPositionMembers(s: seq<SemanticToken>)
    ensures forall t :: t in SortByPosition(s) <==> t in s
  {
    var r := SortByPosition(s);
    forall t ensures t in r <==> t in s {
      assert t in r <==> t in multiset(r);
      assert t in s <==> t in multiset(s);
    }
  }

  /** Every token the sort returns lies on a line above `line` when every input token does. */
  lemma SortKeepsLinesBelow(s: seq<SemanticToken>, line: nat)
    requires forall i :: 0 <= i < |s| ==> s[i].deltaLine < line
    ensures forall i :: 0 <= i < |SortByPosition(s)| ==> SortByPosition(s)[i].deltaLine < line
  {
    var sorted := SortByPosition(s);
    SortByPositionMembers(s);
    forall i | 0 <= i < |sorted|
      ensures sorted[i].deltaLine < line
    {
      assert sorted[i] in s;
    }
  }

  /** A token on a later line than every token of `s` is inserted at the end. */
  lemma {:induction false} InsertBelowLaterLine(t: SemanticToken, s: seq<SemanticToken>)
    requires forall i :: 0 <= i < |s| ==> s[i].deltaLine < t.deltaLine
    ensures Insert(t, s) == s + [t]
  {
    if |s| > 0 {
      InsertBelowLaterLine(t, s[1..]);
      assert s == [s[0]] + s[1..];
    }
  }

  /** A token on a later line than every other token ends up last; the others are sorted among themselves. */
  lemma SortPutsLaterLineLast(t: SemanticToken, s: seq<SemanticToken>)
    requires forall i :: 0 <= i < |s| ==> s[i].deltaLine < t.deltaLine
    ensures SortByPosition([t] + s) == SortByPosition(s) + [t]
  {
    SortKeepsLinesBelow(s, t.deltaLine);
    InsertBelowLaterLine(t, SortByPosition(s));
    var ts := [t] + s;
    assert ts[0] == t && ts[1..] == s;
  }
}
