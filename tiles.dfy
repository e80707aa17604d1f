/**
 * The sidebar tiles of the student view: how many non-blank zones want each
 * term, the order the tiles are shown in (fixed-top terms first, then each
 * cluster shuffled unless the terms file says `@no-shuffle`), the tiles
 * themselves, and the counts a reset restores.
 *
 * `Math.random` is an arbitrary function `roll` of the cluster number and the
 * shuffle step; every sequence of random draws is one such function.
 */
module Tiles {
  import opened Wrappers
  import opened Zones
  import opened TermParser

  /** A sidebar tile. `multi` tiles can be placed `remaining` more times; a single-use tile
      ignores `remaining`. `placed` is the consumed state (class `placed`, not draggable). */
  datatype Tile = Tile(multi: bool, remaining: int, placed: bool)

  // ---------------------------------------------------------------------
  // Counting

  /** `dropZones.filter(non-blank).flatMap(z => z.acceptedTerms)`. */
  function NonBlankTerms(zones: seq<Zone>): (ts: seq<string>)
    ensures forall t :: t in ts <==> exists z :: z in zones && t in z.acceptedTerms
  {
    if |zones| == 0 then []
    else
      var rest := NonBlankTerms(zones[1..]);
      assert forall z :: z in zones <==> z == zones[0] || z in zones[1..];
      (if zones[0].IsBlank() then [] else zones[0].acceptedTerms) + rest
  }

  /** Terms in the order of their first occurrence, each once: the key order of the
      `counts` object. */
  function FirstOccurrences<T(==,!new)>(ts: seq<T>): (r: seq<T>)
    ensures Distinct(r)
    ensures forall t :: t in r <==> t in ts
  {
    if |ts| == 0 then []
    else
      var init := ts[..|ts| - 1];
      var r0 := FirstOccurrences(init);
      assert forall t :: t in ts <==> t in init || t == ts[|ts| - 1];
      if ts[|ts| - 1] in r0 then r0 else r0 + [ts[|ts| - 1]]
  }

  /** How many times `t` occurs in `ts`. */
  function Occurrences<T(==,!new)>(ts: seq<T>, t: T): (n: nat)
    ensures n > 0 <==> t in ts
  {
    if |ts| == 0 then 0
    else
      assert forall x :: x in ts <==> x in ts[..|ts| - 1] || x == ts[|ts| - 1];
      Occurrences(ts[..|ts| - 1], t) + (if ts[|ts| - 1] == t then 1 else 0)
  }

  lemma {:induction false} OccurrencesAppend<T(!new)>(a: seq<T>, b: seq<T>, t: T)
    ensures Occurrences(a + b, t) == Occurrences(a, t) + Occurrences(b, t)
    decreases |b|
  {
    if |b| > 0 {
      var b0 := b[..|b| - 1];
      OccurrencesAppend(a, b0, t);
      assert (a + b)[..|a + b| - 1] == a + b0;
    } else {
      assert a + b == a;
    }
  }

  /** The `forEach` that fills `counts`: one entry per term, the number of times it occurs,
      and the keys in first-occurrence order. */
  method CountOccurrences<T(==,!new)>(all: seq<T>) returns (counts: map<T, nat>, keys: seq<T>)
    ensures forall t :: t in counts <==> t in all
    ensures forall t :: t in counts ==> counts[t] == Occurrences(all, t)
    ensures keys == FirstOccurrences(all)
  {
    counts := map[];
    keys := [];
    var i := 0;
    while i < |all|
      invariant 0 <= i <= |all|
      invariant CountedUpTo(all, i, counts, keys)
    {
      var term := all[i];
      CountStep(all, i, counts, keys);
      if term in counts {
        counts := counts[term := counts[term] + 1];
      } else {
        counts := counts[term := 1];
        keys := keys + [term];
      }
      i := i + 1;
    }
    assert all[..i] == all;
  }

  /** The loop's invariant: `counts` and `keys` describe the first `i` terms. */
  ghost predicate CountedUpTo<T(!new)>(all: seq<T>, i: nat, counts: map<T, nat>, keys: seq<T>)
    requires i <= |all|
  {
    && (forall t :: t in counts <==> t in all[..i])
    && (forall t :: t in counts ==> counts[t] == Occurrences(all[..i], t))
    && keys == FirstOccurrences(all[..i])
  }

  /** One more term counted. */
  lemma CountStep<T(!new)>(all: seq<T>, i: nat, counts: map<T, nat>, keys: seq<T>)
    requires i < |all| && CountedUpTo(all, i, counts, keys)
    ensures var t := all[i];
      if t in counts then CountedUpTo(all, i + 1, counts[t := counts[t] + 1], keys)
      else CountedUpTo(all, i + 1, counts[t := 1], keys + [t])
  {
    assert all[..i + 1][..i] == all[..i];
  }

  /** The counting step of `createDraggableLabels`: how many times each term occurs among the
      accepted terms of non-blank zones. */
  method CountTerms(zones: seq<Zone>) returns (counts: map<string, nat>, keys: seq<string>)
    ensures forall t :: t in counts <==> exists z :: z in zones && t in z.acceptedTerms
    ensures forall t :: t in counts ==> counts[t] == Occurrences(NonBlankTerms(zones), t) > 0
    ensures keys == FirstOccurrences(NonBlankTerms(zones))
  {
    counts, keys := CountOccurrences(NonBlankTerms(zones));
  }

  // ---------------------------------------------------------------------
  // Order

  /** `s.filter(t => used.includes(t) && !exclude.includes(t))`. */
  function Filter<T(==)>(s: seq<T>, used: seq<T>, exclude: seq<T>): seq<T> {
    if |s| == 0 then []
    else if s[0] in used && s[0] !in exclude then [s[0]] + Filter(s[1..], used, exclude)
    else Filter(s[1..], used, exclude)
  }

  /** The filter on terms: it keeps exactly the used terms not excluded, and no duplicate. */
  function Keep(s: seq<string>, used: seq<string>, exclude: seq<string>): (r: seq<string>)
    ensures forall t :: t in r <==> t in s && t in used && t !in exclude
    ensures Distinct(s) ==> Distinct(r)
  {
    FilterMembers(s, used, exclude);
    FilterDistinct(s, used, exclude);
    Filter(s, used, exclude)
  }

  lemma {:induction false} FilterMembers<T>(s: seq<T>, used: seq<T>, exclude: seq<T>)
    ensures forall t :: t in Filter(s, used, exclude) <==> t in s && t in used && t !in exclude
  {
    if |s| > 0 {
      FilterMembers(s[1..], used, exclude);
      assert forall t :: t in s <==> t == s[0] || t in s[1..];
    }
  }

  lemma {:induction false} FilterDistinct(s: seq<string>, used: seq<string>, exclude: seq<string>)
    ensures Distinct(s) ==> Distinct(Filter(s, used, exclude))
  {
    if |s| > 0 && Distinct(s) {
      FilterDistinct(s[1..], used, exclude);
      FilterMembers(s[1..], used, exclude);
      var rest := Filter(s[1..], used, exclude);
      if s[0] in used && s[0] !in exclude {
        assert s[0] !in s[1..];
        var r := [s[0]] + rest;
        forall i, j | 0 <= i < j < |r| ensures r[i] != r[j] {
          if i == 0 {
            assert r[j] == rest[j - 1] && r[j] in rest;
          } else {
            assert r[i] == rest[i - 1] && r[j] == rest[j - 1];
          }
        }
      }
    }
  }

  function Swap<T>(s: seq<T>, i: nat, j: nat): (r: seq<T>)
    requires i < |s| && j < |s|
    ensures |r| == |s|
  {
    s[i := s[j]][j := s[i]]
  }

  /** A swap is a permutation. */
  lemma SwapPermutes<T>(s: seq<T>, i: nat, j: nat)
    requires i < |s| && j < |s|
    ensures multiset(Swap(s, i, j)) == multiset(s)
  {
  }

  /** `Math.floor(Math.random() * (i + 1))`: the position step `i` of cluster `c` swaps with,
      anywhere in `[0, i]`; `roll` may return any position, and one past `i` counts as `i`. */
  function Pick(c: nat, roll: (nat, nat) -> nat, i: nat): (j: nat)
    ensures j <= i
  {
    if roll(c, i) <= i then roll(c, i) else i
  }

  /** Fisher–Yates from position `i` down to 1: each step swaps position `i` with a position
      `j <= i` drawn by `roll`. */
  function ShuffleFrom<T>(s: seq<T>, c: nat, roll: (nat, nat) -> nat, i: int): seq<T>
    requires i < |s|
    decreases i
  {
    if i <= 0 then s else ShuffleFrom(Swap(s, i, Pick(c, roll, i)), c, roll, i - 1)
  }

  /** The shuffle of cluster number `c`. */
  function Shuffled<T>(s: seq<T>, c: nat, roll: (nat, nat) -> nat): seq<T> {
    ShuffleFrom(s, c, roll, |s| - 1)
  }

  /** A shuffle is a permutation. */
  lemma {:induction false} ShuffleFromPermutes<T>(s: seq<T>, c: nat, roll: (nat, nat) -> nat, i: int)
    requires i < |s|
    ensures |ShuffleFrom(s, c, roll, i)| == |s|
    ensures multiset(ShuffleFrom(s, c, roll, i)) == multiset(s)
    decreases i
  {
    if i > 0 {
      var j := Pick(c, roll, i);
      var swapped := Swap(s, i, j);
      assert ShuffleFrom(s, c, roll, i) == ShuffleFrom(swapped, c, roll, i - 1);
      ShuffleFromPermutes(swapped, c, roll, i - 1);
      SwapPermutes(s, i, j);
    }
  }

  lemma DistinctByMultiset(s: seq<string>, r: seq<string>)
    requires multiset(r) == multiset(s) && Distinct(s)
    ensures Distinct(r)
  {
    forall i, j | 0 <= i < j < |r| ensures r[i] != r[j] {
      if r[i] == r[j] {
        var m := multiset(r);
        assert r == r[..i] + [r[i]] + r[i + 1..j] + [r[j]] + r[j + 1..];
        assert m[r[i]] >= 2;
        DistinctCount(s, r[i]);
      }
    }
  }

  lemma {:induction false} DistinctCount(s: seq<string>, t: string)
    requires Distinct(s)
    ensures multiset(s)[t] <= 1
  {
    if |s| > 0 {
      var init := s[..|s| - 1];
      assert Distinct(init);
      DistinctCount(init, t);
      assert s == init + [s[|s| - 1]];
      assert s[|s| - 1] !in init;
    }
  }

  /** One cluster's picked terms as they are appended: shuffled unless `noShuffle`. */
  function Arrange(picked: seq<string>, noShuffle: bool, c: nat, roll: (nat, nat) -> nat): seq<string> {
    if noShuffle then picked else Shuffled(picked, c, roll)
  }

  /** Arranging is a permutation, and the identity under `noShuffle`. */
  lemma ArrangePermutes(picked: seq<string>, noShuffle: bool, c: nat, roll: (nat, nat) -> nat)
    ensures var terms := Arrange(picked, noShuffle, c, roll);
      && multiset(terms) == multiset(picked)
      && (forall t :: t in terms <==> t in picked)
      && (Distinct(picked) ==> Distinct(terms))
      && (noShuffle ==> terms == picked)
  {
    var terms := Arrange(picked, noShuffle, c, roll);
    if !noShuffle {
      ShuffleFromPermutes(picked, c, roll, |picked| - 1);
    }
    forall t ensures t in terms <==> t in picked {
      assert t in terms <==> t in multiset(terms);
      assert t in picked <==> t in multiset(picked);
    }
    if Distinct(picked) {
      DistinctByMultiset(picked, terms);
    }
  }

  /** Appending terms none of which is listed yet keeps the list free of duplicates. */
  lemma DistinctAppend(ordered: seq<string>, terms: seq<string>)
    requires Distinct(ordered) && Distinct(terms)
    requires forall t :: t in terms ==> t !in ordered
    ensures Distinct(ordered + terms)
  {
    var next := ordered + terms;
    forall i, j | 0 <= i < j < |next| ensures next[i] != next[j] {
      if j >= |ordered| && i < |ordered| {
        assert next[j] == terms[j - |ordered|] && next[i] in ordered;
      } else if i >= |ordered| {
        assert next[i] == terms[i - |ordered|] && next[j] == terms[j - |ordered|];
      }
    }
  }

  /** `clusters.forEach(...)`: each cluster's used terms not listed yet, shuffled unless
      `noShuffle`, appended in cluster order. `c` numbers the clusters for `roll`. */
  function OrderClusters(ordered: seq<string>, clusters: seq<seq<string>>, used: seq<string>,
                         noShuffle: bool, roll: (nat, nat) -> nat, c: nat): seq<string>
    decreases |clusters|
  {
    if |clusters| == 0 then ordered
    else
      var terms := Arrange(Keep(clusters[0], used, ordered), noShuffle, c, roll);
      OrderClusters(ordered + terms, clusters[1..], used, noShuffle, roll, c + 1)
  }

  /** The used fixed-top terms, in file order. */
  function FixedUsed(ordering: Option<TermOrdering>, used: seq<string>): seq<string> {
    if ordering.Some? then Keep(ordering.value.fixedTop, used, []) else []
  }

  /** The loader's clusters when there are any; otherwise one cluster of all other used terms. */
  function ClustersToUse(ordering: Option<TermOrdering>, used: seq<string>): seq<seq<string>> {
    if ordering.Some? && |ordering.value.randomClusters| > 0 then ordering.value.randomClusters
    else [Keep(used, used, FixedUsed(ordering, used))]
  }

  /** The order of the sidebar tiles. */
  function TileOrder(used: seq<string>, ordering: Option<TermOrdering>, roll: (nat, nat) -> nat): seq<string> {
    OrderClusters(FixedUsed(ordering, used), ClustersToUse(ordering, used), used,
                  ordering.Some? && ordering.value.noShuffle, roll, 0)
  }

  /** What `OrderClusters` adds: only used terms not already there, each once, and exactly the
      used terms of the clusters. */
  lemma {:induction false} OrderClustersSpec(ordered: seq<string>, clusters: seq<seq<string>>, used: seq<string>,
                                             noShuffle: bool, roll: (nat, nat) -> nat, c: nat)
    requires Distinct(ordered)
    requires forall k :: 0 <= k < |clusters| ==> Distinct(clusters[k])
    ensures var r := OrderClusters(ordered, clusters, used, noShuffle, roll, c);
      && Distinct(r)
      && |r| >= |ordered| && r[..|ordered|] == ordered
      && forall t :: t in r <==> t in ordered || (t in used && exists k :: 0 <= k < |clusters| && t in clusters[k])
    decreases |clusters|
  {
    if |clusters| > 0 {
      var picked := Keep(clusters[0], used, ordered);
      var terms := Arrange(picked, noShuffle, c, roll);
      ArrangePermutes(picked, noShuffle, c, roll);
      var next := ordered + terms;
      DistinctAppend(ordered, terms);
      OrderClustersSpec(next, clusters[1..], used, noShuffle, roll, c + 1);
      var r := OrderClusters(next, clusters[1..], used, noShuffle, roll, c + 1);
      assert r == OrderClusters(ordered, clusters, used, noShuffle, roll, c);
      assert r[..|ordered|] == r[..|next|][..|ordered|];
      forall t ensures t in r <==> t in ordered || (t in used && exists k :: 0 <= k < |clusters| && t in clusters[k]) {
        if t in used && t in clusters[0] {
          assert t in next;
        }
        if exists k :: 0 <= k < |clusters[1..]| && t in clusters[1..][k] {
          var k :| 0 <= k < |clusters[1..]| && t in clusters[1..][k];
          assert t in clusters[k + 1];
        }
        if exists k :: 0 <= k < |clusters| && t in clusters[k] {
          var k :| 0 <= k < |clusters| && t in clusters[k];
          if k > 0 {
            assert t in clusters[1..][k - 1];
          }
        }
      }
    }
  }

  /** With `noShuffle` each cluster keeps its file order. */
  lemma {:induction false} OrderClustersNoShuffle(ordered: seq<string>, clusters: seq<seq<string>>, used: seq<string>,
                                                  roll1: (nat, nat) -> nat, roll2: (nat, nat) -> nat, c: nat)
    ensures OrderClusters(ordered, clusters, used, true, roll1, c) == OrderClusters(ordered, clusters, used, true, roll2, c)
    decreases |clusters|
  {
    if |clusters| > 0 {
      var picked := Keep(clusters[0], used, ordered);
      assert Arrange(picked, true, c, roll1) == picked == Arrange(picked, true, c, roll2);
      OrderClustersNoShuffle(ordered + picked, clusters[1..], used, roll1, roll2, c + 1);
    }
  }

  /** The tile order has no duplicate and lists only used terms; the used fixed-top terms come
      first; when the loader produced clusters, the other tiles are exactly the used terms of
      some cluster (a used term in no section gets no tile), and otherwise every used term
      gets one. */
  lemma TileOrderSpec(used: seq<string>, ordering: Option<TermOrdering>, roll: (nat, nat) -> nat)
    requires Distinct(used)
    requires ordering.Some? ==> Distinct(ordering.value.fixedTop + Flatten(ordering.value.randomClusters))
    ensures var r := TileOrder(used, ordering, roll);
      && Distinct(r)
      && (forall t :: t in r ==> t in used)
      && |r| >= |FixedUsed(ordering, used)| && r[..|FixedUsed(ordering, used)|] == FixedUsed(ordering, used)
      && (ordering.Some? && |ordering.value.randomClusters| > 0 ==>
            forall t :: t in r <==> t in used && (t in ordering.value.fixedTop || t in Flatten(ordering.value.randomClusters)))
      && (ordering.None? || |ordering.value.randomClusters| == 0 ==> forall t :: t in r <==> t in used)
  {
    var fixed := FixedUsed(ordering, used);
    var clusters := ClustersToUse(ordering, used);
    var noShuffle := ordering.Some? && ordering.value.noShuffle;
    assert Distinct(fixed) by {
      if ordering.Some? {
        DistinctParts(ordering.value.fixedTop, Flatten(ordering.value.randomClusters));
      }
    }
    assert forall t :: t in fixed ==> t in used;
    ClustersDistinct(used, ordering);
    OrderClustersSpec(fixed, clusters, used, noShuffle, roll, 0);
    var r := TileOrder(used, ordering, roll);
    assert r == OrderClusters(fixed, clusters, used, noShuffle, roll, 0);
    if ordering.Some? && |ordering.value.randomClusters| > 0 {
      forall t ensures (exists k :: 0 <= k < |clusters| && t in clusters[k]) <==> t in Flatten(clusters) {
        FlattenMember(clusters, t);
      }
    } else {
      assert clusters == [Keep(used, used, fixed)];
      forall t ensures t in r <==> t in used {
        if t in used && t !in fixed {
          assert t in clusters[0];
        }
      }
    }
  }

  lemma ClustersDistinct(used: seq<string>, ordering: Option<TermOrdering>)
    requires Distinct(used)
    requires ordering.Some? ==> Distinct(ordering.value.fixedTop + Flatten(ordering.value.randomClusters))
    ensures var clusters := ClustersToUse(ordering, used);
      forall k :: 0 <= k < |clusters| ==> Distinct(clusters[k])
  {
    if ordering.Some? && |ordering.value.randomClusters| > 0 {
      var o := ordering.value;
      DistinctParts(o.fixedTop, Flatten(o.randomClusters));
      forall k | 0 <= k < |o.randomClusters| ensures Distinct(o.randomClusters[k]) {
        FlattenPartDistinct(o.randomClusters, k);
      }
    }
  }

  lemma DistinctParts(a: seq<string>, b: seq<string>)
    requires Distinct(a + b)
    ensures Distinct(a) && Distinct(b)
  {
    forall i, j | 0 <= i < j < |a| ensures a[i] != a[j] {
      assert a[i] == (a + b)[i] && a[j] == (a + b)[j];
    }
    forall i, j | 0 <= i < j < |b| ensures b[i] != b[j] {
      assert b[i] == (a + b)[|a| + i] && b[j] == (a + b)[|a| + j];
    }
  }

  lemma {:induction false} FlattenPartDistinct(cs: seq<seq<string>>, k: nat)
    requires k < |cs| && Distinct(Flatten(cs))
    ensures Distinct(cs[k])
  {
    var init := cs[..|cs| - 1];
    DistinctParts(Flatten(init), cs[|cs| - 1]);
    if k < |cs| - 1 {
      FlattenPartDistinct(init, k);
    }
  }

  /** With `@no-shuffle`, the order does not depend on the random draws. */
  lemma TileOrderNoShuffle(used: seq<string>, ordering: Option<TermOrdering>,
                           roll1: (nat, nat) -> nat, roll2: (nat, nat) -> nat)
    requires ordering.Some? && ordering.value.noShuffle
    ensures TileOrder(used, ordering, roll1) == TileOrder(used, ordering, roll2)
  {
    OrderClustersNoShuffle(FixedUsed(ordering, used), ClustersToUse(ordering, used), used, roll1, roll2, 0);
  }

  /** With `@no-shuffle`, the tiles are the used terms in the loader's order: the fixed-top terms,
      then the clusters in file order; without clusters, the fixed-top terms and then every other
      used term in the order the zones list them. */
  lemma TileOrderFileOrder(used: seq<string>, ordering: Option<TermOrdering>, roll: (nat, nat) -> nat)
    requires Distinct(used)
    requires ordering.Some? && ordering.value.noShuffle
    requires Distinct(ordering.value.fixedTop + Flatten(ordering.value.randomClusters))
    ensures var o := ordering.value;
      |o.randomClusters| > 0 ==>
        TileOrder(used, ordering, roll) == Keep(o.fixedTop + Flatten(o.randomClusters), used, [])
    ensures var o := ordering.value;
      |o.randomClusters| == 0 ==>
        TileOrder(used, ordering, roll) == Keep(o.fixedTop, used, []) + Keep(used, used, Keep(o.fixedTop, used, []))
  {
    if |ordering.value.randomClusters| > 0 {
      FileOrderWithClusters(used, ordering, roll);
    } else {
      FileOrderWithoutClusters(used, ordering, roll);
    }
  }

  lemma FileOrderWithClusters(used: seq<string>, ordering: Option<TermOrdering>, roll: (nat, nat) -> nat)
    requires ordering.Some? && ordering.value.noShuffle && |ordering.value.randomClusters| > 0
    requires Distinct(ordering.value.fixedTop + Flatten(ordering.value.randomClusters))
    ensures TileOrder(used, ordering, roll)
         == Keep(ordering.value.fixedTop + Flatten(ordering.value.randomClusters), used, [])
  {
    var o := ordering.value;
    var fixed := Keep(o.fixedTop, used, []);
    var rest := Flatten(o.randomClusters);
    assert FixedUsed(ordering, used) == fixed && ClustersToUse(ordering, used) == o.randomClusters;
    DistinctParts(o.fixedTop, rest);
    OrderClustersFileOrder(fixed, o.randomClusters, used, roll, 0);
    forall t | t in fixed ensures t !in rest {
      DisjointParts(o.fixedTop, rest, t);
    }
    FilterUnaffected(rest, used, [], fixed);
    assert [] + fixed == fixed;
    FilterConcat(o.fixedTop, rest, used, []);
  }

  lemma FileOrderWithoutClusters(used: seq<string>, ordering: Option<TermOrdering>, roll: (nat, nat) -> nat)
    requires Distinct(used)
    requires ordering.Some? && ordering.value.noShuffle && |ordering.value.randomClusters| == 0
    ensures TileOrder(used, ordering, roll)
         == Keep(ordering.value.fixedTop, used, []) + Keep(used, used, Keep(ordering.value.fixedTop, used, []))
  {
    var fixed := Keep(ordering.value.fixedTop, used, []);
    var cluster := Keep(used, used, fixed);
    assert FixedUsed(ordering, used) == fixed && ClustersToUse(ordering, used) == [cluster];
    assert Flatten([cluster]) == Flatten([cluster][..0]) + cluster;
    assert Flatten([cluster][..0]) == [];
    OrderClustersFileOrder(fixed, [cluster], used, roll, 0);
    FilterAgain(cluster, used, fixed);
  }

  /** Without shuffling, the clusters contribute their used terms in file order. */
  lemma {:induction false} OrderClustersFileOrder(ordered: seq<string>, clusters: seq<seq<string>>, used: seq<string>,
                                                  roll: (nat, nat) -> nat, c: nat)
    requires Distinct(Flatten(clusters))
    ensures OrderClusters(ordered, clusters, used, true, roll, c) == ordered + Keep(Flatten(clusters), used, ordered)
    decreases |clusters|
  {
    if |clusters| == 0 {
      assert ordered + [] == ordered;
    } else {
      var first := clusters[0];
      var more := Flatten(clusters[1..]);
      var picked := Keep(first, used, ordered);
      FlattenCons(clusters);
      DistinctParts(first, more);
      OrderClustersFileOrder(ordered + picked, clusters[1..], used, roll, c + 1);
      forall t | t in picked ensures t !in more {
        DisjointParts(first, more, t);
      }
      FilterUnaffected(more, used, ordered, picked);
      FilterConcat(first, more, used, ordered);
      assert Arrange(picked, true, c, roll) == picked;
    }
  }

  lemma {:induction false} FlattenCons(cs: seq<seq<string>>)
    requires |cs| >= 1
    ensures Flatten(cs) == cs[0] + Flatten(cs[1..])
  {
    if |cs| == 1 {
      assert cs[..0] == [] && cs[1..] == [];
    } else {
      var init := cs[..|cs| - 1];
      FlattenCons(init);
      assert init[1..] == cs[1..][..|cs[1..]| - 1];
    }
  }

  lemma DisjointParts(a: seq<string>, b: seq<string>, t: string)
    requires Distinct(a + b) && t in a
    ensures t !in b
  {
    var i :| 0 <= i < |a| && a[i] == t;
    assert (a + b)[i] == t;
    forall j | 0 <= j < |b| ensures b[j] != t {
      assert (a + b)[|a| + j] == b[j];
    }
  }

  /** Filtering a concatenation filters each part. */
  lemma {:induction false} FilterConcat<T>(a: seq<T>, b: seq<T>, used: seq<T>, exclude: seq<T>)
    ensures Filter(a + b, used, exclude) == Filter(a, used, exclude) + Filter(b, used, exclude)
  {
    if |a| > 0 {
      FilterConcat(a[1..], b, used, exclude);
      assert (a + b)[1..] == a[1..] + b;
    } else {
      assert a + b == b;
    }
  }

  /** Excluding values that are not in the list changes nothing. */
  lemma {:induction false} FilterUnaffected<T>(s: seq<T>, used: seq<T>, exclude: seq<T>, extra: seq<T>)
    requires forall t :: t in extra ==> t !in s
    ensures Filter(s, used, exclude + extra) == Filter(s, used, exclude)
  {
    if |s| > 0 {
      assert s[0] !in extra;
      FilterUnaffected(s[1..], used, exclude, extra);
    }
  }

  /** Filtering again a list that passes the filter changes nothing. */
  lemma {:induction false} FilterAgain<T>(s: seq<T>, used: seq<T>, exclude: seq<T>)
    requires forall t :: t in s ==> t in used && t !in exclude
    ensures Filter(s, used, exclude) == s
  {
    if |s| > 0 {
      FilterAgain(s[1..], used, exclude);
      assert [s[0]] + s[1..] == s;
    }
  }

  /** The in-place shuffle of one cluster's terms. */
  method ShuffleCluster(terms: array<string>, c: nat, roll: (nat, nat) -> nat)
    modifies terms
    ensures terms[..] == Shuffled(old(terms[..]), c, roll)
  {
    ghost var cur := terms[..];
    var i := terms.Length - 1;
    while i > 0
      invariant -1 <= i < terms.Length
      invariant terms[..] == cur
      invariant ShuffleFrom(cur, c, roll, i) == Shuffled(old(terms[..]), c, roll)
    {
      var j := Pick(c, roll, i);
      ShuffleStep(cur, c, roll, i);
      terms[i], terms[j] := terms[j], terms[i];
      cur := Swap(cur, i, j);
      i := i - 1;
    }
  }

  /** One step of the shuffle. */
  lemma ShuffleStep<T>(s: seq<T>, c: nat, roll: (nat, nat) -> nat, i: nat)
    requires 0 < i < |s|
    ensures ShuffleFrom(s, c, roll, i) == ShuffleFrom(Swap(s, i, Pick(c, roll, i)), c, roll, i - 1)
  {
  }

  /** The tiles built from the order: one per listed term, multi-use when more than one zone
      occurrence wants it, starting with its count. */
  function NewTile(count: nat): Tile {
    Tile(count > 1, count, false)
  }

  /** One cluster's terms as the tile order receives them: copied into an array and shuffled
      there in place, unless `noShuffle`. */
  method ArrangeCluster(picked: seq<string>, noShuffle: bool, c: nat, roll: (nat, nat) -> nat)
    returns (terms: seq<string>)
    ensures terms == Arrange(picked, noShuffle, c, roll)
  {
    terms := picked;
    if !noShuffle {
      var a := new string[|picked|](i requires 0 <= i < |picked| => picked[i]);
      assert a[..] == picked;
      ShuffleCluster(a, c, roll);
      terms := a[..];
    }
  }

  /** The ordering step of `createDraggableLabels`: the used fixed-top terms, then each
      cluster's used terms not listed yet, shuffled in place unless `noShuffle`. */
  method OrderTiles(used: seq<string>, ordering: Option<TermOrdering>, roll: (nat, nat) -> nat)
    returns (order: seq<string>)
    ensures order == TileOrder(used, ordering, roll)
  {
    var fixedTop := FixedUsed(ordering, used);
    var clusters := ClustersToUse(ordering, used);
    var noShuffle := ordering.Some? && ordering.value.noShuffle;
    order := fixedTop;
    var k := 0;
    while k < |clusters|
      invariant 0 <= k <= |clusters|
      invariant OrderClusters(order, clusters[k..], used, noShuffle, roll, k)
             == OrderClusters(fixedTop, clusters, used, noShuffle, roll, 0)
    {
      var picked := Keep(clusters[k], used, order);
      var terms := ArrangeCluster(picked, noShuffle, k, roll);
      OrderClustersStep(order, clusters, k, used, noShuffle, roll);
      order := order + terms;
      k := k + 1;
    }
  }

  /** Placing cluster `k` moves the remaining work on to cluster `k + 1`. */
  lemma OrderClustersStep(ordered: seq<string>, clusters: seq<seq<string>>, k: nat, used: seq<string>,
                          noShuffle: bool, roll: (nat, nat) -> nat)
    requires k < |clusters|
    ensures OrderClusters(ordered, clusters[k..], used, noShuffle, roll, k)
         == OrderClusters(ordered + Arrange(Keep(clusters[k], used, ordered), noShuffle, k, roll),
                          clusters[k + 1..], used, noShuffle, roll, k + 1)
  {
    assert clusters[k..][1..] == clusters[k + 1..];
  }

  /** The tile-building step: one tile per listed term that has a count. */
  method BuildTiles(order: seq<string>, counts: map<string, nat>) returns (tiles: map<string, Tile>)
    ensures forall t :: t in tiles <==> t in order && t in counts
    ensures forall t :: t in tiles ==> tiles[t] == NewTile(counts[t])
  {
    tiles := map[];
    var i := 0;
    while i < |order|
      invariant 0 <= i <= |order|
      invariant forall t :: t in tiles <==> t in order[..i] && t in counts
      invariant forall t :: t in tiles ==> tiles[t] == NewTile(counts[t])
    {
      var term := order[i];
      if term in counts {
        tiles := tiles[term := NewTile(counts[term])];
      }
      assert order[..i + 1] == order[..i] + [term];
      i := i + 1;
    }
    assert order[..i] == order;
  }

  /** `createDraggableLabels` without the DOM: the tile order and one tile per listed term,
      multi-use exactly when the term occurs more than once among non-blank zones. */
  method CreateDraggableLabels(zones: seq<Zone>, ordering: Option<TermOrdering>, roll: (nat, nat) -> nat)
    returns (order: seq<string>, tiles: map<string, Tile>)
    ensures order == TileOrder(FirstOccurrences(NonBlankTerms(zones)), ordering, roll)
    ensures forall t :: t in tiles <==> t in order
    ensures forall t :: t in tiles ==> tiles[t] == NewTile(Occurrences(NonBlankTerms(zones), t))
  {
    var counts, used := CountTerms(zones);
    order := OrderTiles(used, ordering, roll);
    tiles := BuildTiles(order, counts);
    OrderClustersUsed(FixedUsed(ordering, used), ClustersToUse(ordering, used), used,
                      ordering.Some? && ordering.value.noShuffle, roll, 0);
  }

  /** Every listed term is used, so every listed term gets a tile. */
  lemma {:induction false} OrderClustersUsed(ordered: seq<string>, clusters: seq<seq<string>>, used: seq<string>,
                                             noShuffle: bool, roll: (nat, nat) -> nat, c: nat)
    ensures forall t :: t in OrderClusters(ordered, clusters, used, noShuffle, roll, c) ==> t in ordered || t in used
    decreases |clusters|
  {
    if |clusters| > 0 {
      var picked := Keep(clusters[0], used, ordered);
      var terms := Arrange(picked, noShuffle, c, roll);
      ArrangePermutes(picked, noShuffle, c, roll);
      OrderClustersUsed(ordered + terms, clusters[1..], used, noShuffle, roll, c + 1);
    }
  }

  // ---------------------------------------------------------------------
  // Reset

  /** The count `resetActivity` restores: the number of non-blank zones accepting the term. */
  function ZonesAccepting(zones: seq<Zone>, term: string): (n: nat)
    ensures n <= |zones|
    ensures n > 0 <==> exists z :: z in zones && term in z.acceptedTerms
  {
    if |zones| == 0 then 0
    else
      assert forall z :: z in zones <==> z == zones[0] || z in zones[1..];
      (if !zones[0].IsBlank() && term in zones[0].acceptedTerms then 1 else 0) + ZonesAccepting(zones[1..], term)
  }

  /** `resetActivity` on one tile: no longer consumed; a multi-use tile gets its count back. */
  function ResetTile(zones: seq<Zone>, term: string, t: Tile): Tile {
    if t.multi then Tile(true, ZonesAccepting(zones, term), false) else t.(placed := false)
  }

  /** The restored count never exceeds the initial one, and equals it unless some zone lists
      the term more than once. */
  lemma {:induction false} ResetCountBound(zones: seq<Zone>, term: string)
    ensures ZonesAccepting(zones, term) <= Occurrences(NonBlankTerms(zones), term)
    ensures (forall z :: z in zones ==> Occurrences(z.acceptedTerms, term) <= 1) ==>
      ZonesAccepting(zones, term) == Occurrences(NonBlankTerms(zones), term)
  {
    if |zones| > 0 {
      ResetCountBound(zones[1..], term);
      var z := zones[0];
      OccurrencesAppend(if z.IsBlank() then [] else z.acceptedTerms, NonBlankTerms(zones[1..]), term);
      assert forall z' :: z' in zones[1..] ==> z' in zones;
      if term in z.acceptedTerms && !z.IsBlank() {
        assert Occurrences(z.acceptedTerms, term) >= 1;
      }
    }
  }

  /** A zone listing a term twice: the tile starts with 2 but a reset restores 1. */
  lemma ResetCountDiffers()
    ensures var zones := [Zone("z", ["a", "a"], 1, None, 0.0, 0.0, 10.0, 10.0)];
      ZonesAccepting(zones, "a") == 1 && Occurrences(NonBlankTerms(zones), "a") == 2
  {
    var zones := [Zone("z", ["a", "a"], 1, None, 0.0, 0.0, 10.0, 10.0)];
    assert NonBlankTerms(zones) == ["a", "a"] by {
      assert NonBlankTerms(zones[1..]) == [];
    }
    assert ZonesAccepting(zones[1..], "a") == 0;
  }
}
