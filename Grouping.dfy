/** Grouping of keyed entries by key in first-occurrence order. This is both what an
    insertion-ordered Dictionary<key, List<value>> holds after a sequence of appends and
    what LINQ's GroupBy returns. */
module Grouping {

  ghost predicate Distinct<K>(ks: seq<K>)
  {
    forall i, j :: 0 <= i < j < |ks| ==> ks[i] != ks[j]
  }

  /** The distinct keys of E, in order of first occurrence. */
  function FirstKeys<K(==), V>(E: seq<(K, V)>): (ks: seq<K>)
    ensures forall i :: 0 <= i < |E| ==> E[i].0 in ks
    ensures forall j :: 0 <= j < |ks| ==> exists i :: 0 <= i < |E| && E[i].0 == ks[j]
    ensures Distinct(ks)
  {
    if E == [] then []
    else
      var ks := FirstKeys(E[..|E| - 1]);
      assert forall i :: 0 <= i < |E| - 1 ==> E[..|E| - 1][i] == E[i];
      if E[|E| - 1].0 in ks then ks else ks + [E[|E| - 1].0]
  }

  /** The values of E that carry key k, in their original order. */
  function ValuesOf<K(==), V>(E: seq<(K, V)>, k: K): seq<V>
  {
    if E == [] then []
    else ValuesOf(E[..|E| - 1], k) + (if E[|E| - 1].0 == k then [E[|E| - 1].1] else [])
  }

  /** One group per distinct key, in first-occurrence order, holding that key's values. */
  function GroupBy<K(==), V>(E: seq<(K, V)>): seq<(K, seq<V>)>
  {
    var ks := FirstKeys(E);
    seq(|ks|, i requires 0 <= i < |ks| => (ks[i], ValuesOf(E, ks[i])))
  }

  /** Every value of a group, tagged with the group's key. */
  function Tag<K, V>(k: K, vs: seq<V>): seq<(K, V)>
  {
    seq(|vs|, i requires 0 <= i < |vs| => (k, vs[i]))
  }

  /** Groups flattened back into entries, group after group. */
  function Ungroup<K, V>(groups: seq<(K, seq<V>)>): seq<(K, V)>
  {
    if groups == [] then [] else Tag(groups[0].0, groups[0].1) + Ungroup(groups[1..])
  }

  /** Every key that occurs has at least one value. */
  lemma {:induction false} ValuesOfOccurring<K, V>(E: seq<(K, V)>, k: K)
    requires exists i :: 0 <= i < |E| && E[i].0 == k
    ensures ValuesOf(E, k) != []
  {
    if E[|E| - 1].0 != k {
      var i :| 0 <= i < |E| && E[i].0 == k;
      assert E[..|E| - 1][i] == E[i];
      ValuesOfOccurring(E[..|E| - 1], k);
    }
  }

  /** GroupBy yields one non-empty group per distinct key, with distinct keys. */
  lemma GroupsNonEmpty<K, V>(E: seq<(K, V)>)
    ensures forall i :: 0 <= i < |GroupBy(E)| ==> GroupBy(E)[i].1 != []
    ensures Distinct(seq(|GroupBy(E)|, i requires 0 <= i < |GroupBy(E)| => GroupBy(E)[i].0))
  {
    var G := GroupBy(E);
    forall i | 0 <= i < |G|
      ensures G[i].1 != []
    {
      assert G[i].0 == FirstKeys(E)[i];
      ValuesOfOccurring(E, G[i].0);
    }
    assert seq(|G|, i requires 0 <= i < |G| => G[i].0) == FirstKeys(E);
  }

  /** The keys of a sequence of groups. */
  function Keys<K, V>(groups: seq<(K, seq<V>)>): seq<K>
  {
    seq(|groups|, i requires 0 <= i < |groups| => groups[i].0)
  }

  lemma {:induction false} UngroupAppend<K, V>(G: seq<(K, seq<V>)>, H: seq<(K, seq<V>)>)
    ensures Ungroup(G + H) == Ungroup(G) + Ungroup(H)
  {
    if G == [] {
      assert G + H == H;
    } else {
      assert (G + H)[0] == G[0];
      assert (G + H)[1..] == G[1..] + H;
      UngroupAppend(G[1..], H);
    }
  }

  lemma UngroupSingle<K, V>(k: K, vs: seq<V>)
    ensures Ungroup([(k, vs)]) == Tag(k, vs)
  {
    assert [(k, vs)][1..] == [];
  }

  /** A key no entry carries has no values. */
  lemma {:induction false} ValuesOfAbsent<K, V>(E: seq<(K, V)>, k: K)
    requires forall i :: 0 <= i < |E| ==> E[i].0 != k
    ensures ValuesOf(E, k) == []
  {
    if E != [] {
      ValuesOfAbsent(E[..|E| - 1], k);
    }
  }

  /** Values of a concatenation: those of the first part, then those of the second. */
  lemma {:induction false} ValuesOfAppend<K, V>(A: seq<(K, V)>, B: seq<(K, V)>, k: K)
    ensures ValuesOf(A + B, k) == ValuesOf(A, k) + ValuesOf(B, k)
  {
    if B != [] {
      var n := |B| - 1;
      assert (A + B)[..|A + B| - 1] == A + B[..n];
      ValuesOfAppend(A, B[..n], k);
    } else {
      assert A + B == A;
    }
  }

  lemma {:induction false} ValuesOfTag<K, V>(k: K, vs: seq<V>, k': K)
    ensures ValuesOf(Tag(k, vs), k') == if k' == k then vs else []
  {
    if vs != [] {
      var n := |vs| - 1;
      assert Tag(k, vs)[..|vs| - 1] == Tag(k, vs[..n]);
      ValuesOfTag(k, vs[..n], k');
      assert vs[..n] + [vs[n]] == vs;
    }
  }

  /** Appending a run of entries with one new key adds exactly that key to the first keys. */
  lemma {:induction false} FirstKeysTag<K, V>(A: seq<(K, V)>, k: K, vs: seq<V>)
    requires vs != []
    requires forall i :: 0 <= i < |A| ==> A[i].0 != k
    ensures FirstKeys(A + Tag(k, vs)) == FirstKeys(A) + [k]
  {
    var n := |vs| - 1;
    var C := A + Tag(k, vs[..n]);
    assert A + Tag(k, vs) == C + [(k, vs[n])];
    if n == 0 {
      assert C == A;
      FirstKeysSnocNew(A, (k, vs[n]));
    } else {
      FirstKeysTag(A, k, vs[..n]);
      FirstKeysSnocPresent(C, (k, vs[n]));
    }
  }

  lemma FirstKeysSnocNew<K, V>(E: seq<(K, V)>, e: (K, V))
    requires forall i :: 0 <= i < |E| ==> E[i].0 != e.0
    ensures FirstKeys(E + [e]) == FirstKeys(E) + [e.0]
  {
    var ks := FirstKeys(E);
    forall j | 0 <= j < |ks|
      ensures ks[j] != e.0
    {
      var i :| 0 <= i < |E| && E[i].0 == ks[j];
    }
    assert (E + [e])[..|E|] == E;
  }

  /** Appending entries of a new key adds one group at the end and leaves the others as they were. */
  lemma GroupByAppendGroup<K, V>(A: seq<(K, V)>, k: K, vs: seq<V>)
    requires vs != []
    requires forall i :: 0 <= i < |A| ==> A[i].0 != k
    ensures GroupBy(A + Tag(k, vs)) == GroupBy(A) + [(k, vs)]
  {
    FirstKeysTag(A, k, vs);
    var ks := FirstKeys(A);
    var B := A + Tag(k, vs);
    forall j | 0 <= j < |ks| + 1
      ensures GroupBy(B)[j] == (GroupBy(A) + [(k, vs)])[j]
    {
      var kj := (ks + [k])[j];
      assert GroupBy(B)[j] == (kj, ValuesOf(B, kj));
      ValuesOfAppend(A, Tag(k, vs), kj);
      ValuesOfTag(k, vs, kj);
      if j == |ks| {
        ValuesOfAbsent(A, k);
        assert ValuesOf(B, kj) == vs;
      } else {
        var i :| 0 <= i < |A| && A[i].0 == kj;
        assert kj != k;
        assert ValuesOf(B, kj) == ValuesOf(A, kj);
        assert GroupBy(A)[j] == (kj, ValuesOf(A, kj));
      }
    }
  }

  lemma ValuesOfSnoc<K, V>(E: seq<(K, V)>, e: (K, V), k: K)
    ensures ValuesOf(E + [e], k) == ValuesOf(E, k) + (if e.0 == k then [e.1] else [])
  {
    assert (E + [e])[..|E|] == E;
  }

  lemma FirstKeysSnocPresent<K, V>(E: seq<(K, V)>, e: (K, V))
    requires e.0 in FirstKeys(E)
    ensures FirstKeys(E + [e]) == FirstKeys(E)
  {
    assert (E + [e])[..|E|] == E;
  }

  /** Appending an entry whose key is already present extends that key's group only. */
  lemma GroupBySnocPresent<K, V>(E: seq<(K, V)>, k: K, v: V, p: nat)
    requires p < |FirstKeys(E)| && FirstKeys(E)[p] == k
    ensures GroupBy(E + [(k, v)]) == GroupBy(E)[p := (k, GroupBy(E)[p].1 + [v])]
  {
    var E1 := E + [(k, v)];
    var ks := FirstKeys(E);
    FirstKeysSnocPresent(E, (k, v));
    var G1 := GroupBy(E1);
    var G := GroupBy(E);
    var H := G[p := (k, G[p].1 + [v])];
    assert |G1| == |H|;
    forall j | 0 <= j < |ks|
      ensures G1[j] == H[j]
    {
      var kj := ks[j];
      ValuesOfSnoc(E, (k, v), kj);
      assert G1[j] == (kj, ValuesOf(E1, kj));
      if j == p {
        assert H[j] == (k, ValuesOf(E, k) + [v]);
      } else {
        assert kj != k;
        assert ValuesOf(E1, kj) == ValuesOf(E, kj) + [] == ValuesOf(E, kj);
        assert G1[j] == H[j];
      }
    }
  }

  /** Grouping the flattening of non-empty groups with distinct keys gives those groups back. */
  lemma {:induction false} RegroupUngroup<K, V>(G: seq<(K, seq<V>)>)
    requires forall i :: 0 <= i < |G| ==> G[i].1 != []
    requires Distinct(Keys(G))
    ensures GroupBy(Ungroup(G)) == G
  {
    if G != [] {
      var n := |G| - 1;
      var G' := G[..n];
      var (k, vs) := G[n];
      assert G == G' + [(k, vs)];
      assert Keys(G') == Keys(G)[..n];
      RegroupUngroup(G');
      UngroupAppend(G', [(k, vs)]);
      UngroupSingle(k, vs);
      var A := Ungroup(G');
      assert FirstKeys(A) == Keys(G') by {
        assert forall j :: 0 <= j < |G'| ==> GroupBy(A)[j].0 == FirstKeys(A)[j];
      }
      forall i | 0 <= i < |A|
        ensures A[i].0 != k
      {
        assert A[i].0 in Keys(G');
        assert Keys(G)[n] == k;
      }
      GroupByAppendGroup(A, k, vs);
    }
  }

  /** Extending one group by a value adds exactly that entry to the flattening. */
  lemma {:induction false} UngroupExtend<K, V>(G: seq<(K, seq<V>)>, p: nat, v: V)
    requires p < |G|
    ensures multiset(Ungroup(G[p := (G[p].0, G[p].1 + [v])])) == multiset(Ungroup(G)) + multiset{(G[p].0, v)}
  {
    var H := G[p := (G[p].0, G[p].1 + [v])];
    if p == 0 {
      assert Tag(G[0].0, G[0].1 + [v]) == Tag(G[0].0, G[0].1) + [(G[0].0, v)];
      assert H[1..] == G[1..];
    } else {
      assert H[1..] == G[1..][p - 1 := (G[p].0, G[p].1 + [v])];
      UngroupExtend(G[1..], p - 1, v);
    }
  }

  /** Grouping loses and invents nothing: the flattened groups are a permutation of the entries. */
  lemma {:induction false} GroupByPermutes<K, V>(E: seq<(K, V)>)
    ensures multiset(Ungroup(GroupBy(E))) == multiset(E)
  {
    if E != [] {
      var n := |E| - 1;
      var E' := E[..n];
      var (k, v) := E[n];
      assert E == E' + [(k, v)];
      GroupByPermutes(E');
      var ks := FirstKeys(E');
      var G := GroupBy(E');
      if k in ks {
        var p :| 0 <= p < |ks| && ks[p] == k;
        GroupBySnocPresent(E', k, v, p);
        UngroupExtend(G, p, v);
      } else {
        assert Tag(k, [v]) == [(k, v)];
        GroupByAppendGroup(E', k, [v]);
        UngroupAppend(G, [(k, [v])]);
        UngroupSingle(k, [v]);
      }
    }
  }
}
