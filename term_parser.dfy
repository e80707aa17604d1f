/**
 * The terms-file parser of the activity loader: newline-delimited text becomes
 * a list of terms and an ordering (fixed-top terms, clusters of terms to be
 * shuffled, and a no-shuffle flag).
 *
 * `ParseLines` is the parser as a fold over the lines; `ParseTerms` is the
 * loop the loader runs, proved equal to it; the lemmas state what the fold
 * guarantees.
 */
module TermParser {
  import opened Wrappers
  import opened JsText

  /** What the parser makes of one line once trimmed. */
  datatype Line = Blank | NoShuffleDirective | SectionHeader(isFixedTop: bool) | Term(text: string)

  /** Ordering metadata stored on the activity for the tile builder. */
  datatype TermOrdering = TermOrdering(fixedTop: seq<string>, randomClusters: seq<seq<string>>, noShuffle: bool)

  /** The loader's local variables between two lines. The current cluster is always the last one. */
  datatype ParseState = ParseState(fixedTop: seq<string>, clusters: seq<seq<string>>, seen: set<string>,
                                   inFixed: bool, noShuffle: bool)

  /** `toLowerCase` restricted to what can matter when comparing with "fixed-top":
      no character outside A-Z lowercases to a single one of its characters. */
  function AsciiLower(c: char): char {
    if 'A' <= c <= 'Z' then (c as int + 32) as char else c
  }

  predicate IsFixedTopName(name: string) {
    |name| == 9 && forall k :: 0 <= k < 9 ==> AsciiLower(name[k]) == "fixed-top"[k]
  }

  /** Trims a raw line and classifies it: blank, the `@no-shuffle` directive, a `[...]` header,
      or a candidate term. `[random]` and unknown headers behave the same, so only `[fixed-top]`
      is told apart. */
  function ReadLine(raw: string): Line {
    var line := Trim(raw);
    if line == "" then Blank
    else if line == "@no-shuffle" then NoShuffleDirective
    else if |line| >= 2 && line[0] == '[' && line[|line| - 1] == ']' then
      SectionHeader(IsFixedTopName(line[1..|line| - 1]))
    else Term(line)
  }

  /** Every raw line read. */
  function ReadLines(raws: seq<string>): (ls: seq<Line>)
    ensures |ls| == |raws| && forall j :: 0 <= j < |raws| ==> ls[j] == ReadLine(raws[j])
  {
    seq(|raws|, j requires 0 <= j < |raws| => ReadLine(raws[j]))
  }

  /** The state before the first line: one empty default cluster, section "random". */
  const Start := ParseState([], [[]], {}, false, false)

  /** The body of the loader's `forEach` for one line. */
  function Step(st: ParseState, line: Line): ParseState
    requires |st.clusters| >= 1
  {
    match line
    case Blank => st
    case NoShuffleDirective => st.(noShuffle := true)
    case SectionHeader(fixed) =>
      if fixed then st.(inFixed := true) else st.(inFixed := false, clusters := st.clusters + [[]])
    case Term(t) =>
      if t in st.seen then st
      else if st.inFixed then st.(seen := st.seen + {t}, fixedTop := st.fixedTop + [t])
      else
        var last := |st.clusters| - 1;
        st.(seen := st.seen + {t}, clusters := st.clusters[last := st.clusters[last] + [t]])
  }

  /** The state after all of `lines`, as a left fold of `Step`. */
  function ParseLines(lines: seq<Line>): (st: ParseState)
    ensures |st.clusters| >= 1
  {
    if |lines| == 0 then Start else Step(ParseLines(lines[..|lines| - 1]), lines[|lines| - 1])
  }

  function Flatten(cs: seq<seq<string>>): seq<string> {
    if |cs| == 0 then [] else Flatten(cs[..|cs| - 1]) + cs[|cs| - 1]
  }

  /** `randomClusters.filter(cluster => cluster.length > 0)`. */
  function NonEmptyClusters(cs: seq<seq<string>>): (r: seq<seq<string>>)
    ensures forall k :: 0 <= k < |r| ==> |r[k]| > 0
    ensures forall c :: c in r <==> c in cs && |c| > 0
    ensures Flatten(r) == Flatten(cs)
  {
    if |cs| == 0 then []
    else
      var init := cs[..|cs| - 1];
      var rest := NonEmptyClusters(init);
      assert forall c :: c in cs <==> c in init || c == cs[|cs| - 1];
      if |cs[|cs| - 1]| > 0 then
        assert (rest + [cs[|cs| - 1]])[..|rest|] == rest;
        rest + [cs[|cs| - 1]]
      else
        assert Flatten(cs) == Flatten(init) + [];
        rest
  }

  /** The loader's result: the term list and the ordering stored on the activity. */
  function Output(st: ParseState): (seq<string>, TermOrdering) {
    var clusters := NonEmptyClusters(st.clusters);
    (st.fixedTop + Flatten(clusters), TermOrdering(st.fixedTop, clusters, st.noShuffle))
  }

  /** Parses a whole terms text. */
  function Parse(text: string): (seq<string>, TermOrdering) {
    Output(ParseLines(ReadLines(SplitLines(text))))
  }

  predicate Distinct<T(==)>(s: seq<T>) {
    forall i, j :: 0 <= i < j < |s| ==> s[i] != s[j]
  }

  // ---------------------------------------------------------------------
  // Reference definitions, each independent of the fold

  /** Index of the first line that reads as the term `t`; `|lines|` when there is none. */
  function FirstIdx(lines: seq<Line>, t: string): (r: nat)
    ensures r <= |lines|
    ensures r < |lines| ==> lines[r] == Term(t)
    ensures forall j :: 0 <= j < r && j < |lines| ==> lines[j] != Term(t)
  {
    if |lines| == 0 then 0
    else
      var n := |lines| - 1;
      var p := FirstIdx(lines[..n], t);
      if p < n then p
      else if lines[n] == Term(t) then n
      else n + 1
  }

  /** Whether the last section header among `lines` is `[fixed-top]`. */
  function InFixedAfter(lines: seq<Line>): bool {
    if |lines| == 0 then false
    else match lines[|lines| - 1]
      case SectionHeader(fixed) => fixed
      case _ => InFixedAfter(lines[..|lines| - 1])
  }

  /** One default cluster plus one per header other than `[fixed-top]` among `lines`. */
  function ClustersAfter(lines: seq<Line>): nat {
    if |lines| == 0 then 1
    else match lines[|lines| - 1]
      case SectionHeader(fixed) =>
        ClustersAfter(lines[..|lines| - 1]) + (if fixed then 0 else 1)
      case _ => ClustersAfter(lines[..|lines| - 1])
  }

  predicate HasDirective(lines: seq<Line>) {
    exists j :: 0 <= j < |lines| && lines[j] == NoShuffleDirective
  }

  /** Within `list`, terms appear in the order of their first occurrence in `lines`. */
  predicate InFileOrder(lines: seq<Line>, list: seq<string>) {
    forall a, b :: 0 <= a < b < |list| ==> FirstIdx(lines, list[a]) < FirstIdx(lines, list[b])
  }

  // ---------------------------------------------------------------------
  // Lemmas about the fold

  lemma FlattenAppendLast(cs: seq<seq<string>>, x: string)
    requires |cs| >= 1
    ensures Flatten(cs[|cs| - 1 := cs[|cs| - 1] + [x]]) == Flatten(cs) + [x]
  {
    var cs' := cs[|cs| - 1 := cs[|cs| - 1] + [x]];
    assert cs'[..|cs'| - 1] == cs[..|cs| - 1];
  }

  lemma {:induction false} FlattenMember(cs: seq<seq<string>>, t: string)
    ensures t in Flatten(cs) <==> exists k :: 0 <= k < |cs| && t in cs[k]
  {
    if |cs| > 0 {
      var init := cs[..|cs| - 1];
      FlattenMember(init, t);
      assert forall k :: 0 <= k < |init| ==> init[k] == cs[k];
    }
  }

  /** Adding a line does not move the first occurrence of a term already seen. */
  lemma FirstIdxStable(lines: seq<Line>, t: string)
    requires |lines| >= 1
    requires FirstIdx(lines[..|lines| - 1], t) < |lines| - 1
    ensures FirstIdx(lines, t) == FirstIdx(lines[..|lines| - 1], t)
    ensures lines[..FirstIdx(lines, t)] == lines[..|lines| - 1][..FirstIdx(lines, t)]
  {
  }

  /** The section, the cluster count and the directive flag follow the reference definitions. */
  lemma {:induction false} ParseShape(lines: seq<Line>)
    ensures ParseLines(lines).inFixed == InFixedAfter(lines)
    ensures |ParseLines(lines).clusters| == ClustersAfter(lines)
    ensures ParseLines(lines).noShuffle <==> HasDirective(lines)
  {
    if |lines| > 0 {
      var init := lines[..|lines| - 1];
      ParseShape(init);
      assert forall j :: 0 <= j < |init| ==> init[j] == lines[j];
      if HasDirective(init) {
        var j :| 0 <= j < |init| && init[j] == NoShuffleDirective;
        assert lines[j] == NoShuffleDirective;
      }
    }
  }

  /** All terms collected so far, fixed-top first. */
  function AllTerms(st: ParseState): seq<string> {
    st.fixedTop + Flatten(st.clusters)
  }

  /** The loader's bookkeeping invariant: `seen` is exactly the set of collected terms,
      and no term was collected twice. */
  ghost predicate Consistent(st: ParseState) {
    |st.clusters| >= 1 && Distinct(AllTerms(st)) && forall t :: t in st.seen <==> t in AllTerms(st)
  }

  lemma DistinctInsert(a: seq<string>, b: seq<string>, t: string)
    requires Distinct(a + b) && t !in a + b
    ensures Distinct(a + [t] + b)
  {
    var s := a + [t] + b;
    forall i, j | 0 <= i < j < |s| ensures s[i] != s[j] {
      var ab := a + b;
      if j == |a| {
        assert s[i] == ab[i] && s[j] == t;
      } else if i == |a| {
        assert s[j] == ab[j - 1] && s[i] == t;
      } else {
        var i' := if i < |a| then i else i - 1;
        var j' := if j < |a| then j else j - 1;
        assert s[i] == ab[i'] && s[j] == ab[j'] && i' < j';
      }
    }
  }

  /** One line keeps the bookkeeping invariant and adds at most its own term to `seen`. */
  /** A new term read in the fixed-top section goes between the fixed-top terms and the clusters. */
  lemma StepFixedTerm(st: ParseState, t: string)
    requires Consistent(st) && t !in st.seen && st.inFixed
    ensures Consistent(Step(st, Term(t)))
  {
    assert AllTerms(Step(st, Term(t))) == st.fixedTop + [t] + Flatten(st.clusters);
    DistinctInsert(st.fixedTop, Flatten(st.clusters), t);
  }

  /** A new term read in a random section goes after every term collected so far. */
  lemma StepClusterTerm(st: ParseState, t: string)
    requires Consistent(st) && t !in st.seen && !st.inFixed
    ensures Consistent(Step(st, Term(t)))
  {
    FlattenAppendLast(st.clusters, t);
    assert AllTerms(Step(st, Term(t))) == AllTerms(st) + [t];
  }

  lemma StepConsistent(st: ParseState, line: Line)
    requires Consistent(st)
    ensures Consistent(Step(st, line))
    ensures Step(st, line).seen == if line.Term? then st.seen + {line.text} else st.seen
  {
    match line
    case Term(t) =>
      if t !in st.seen {
        if st.inFixed {
          StepFixedTerm(st, t);
        } else {
          StepClusterTerm(st, t);
        }
      }
    case SectionHeader(fixed) =>
      if !fixed {
        assert Flatten(st.clusters + [[]]) == Flatten(st.clusters) + [];
        assert AllTerms(Step(st, line)) == AllTerms(st);
      }
    case _ =>
  }

  /** Every line yields at most one term: the fold's terms are distinct and are exactly the terms
      some line reads as. */
  lemma {:induction false} ParseSeen(lines: seq<Line>)
    ensures Consistent(ParseLines(lines))
    ensures forall t :: t in ParseLines(lines).seen <==> Term(t) in lines
  {
    if |lines| > 0 {
      var n := |lines| - 1;
      var init := lines[..n];
      ParseSeen(init);
      StepConsistent(ParseLines(init), lines[n]);
      assert lines == init + [lines[n]];
    }
  }

  /** A term occurs in `lines` exactly when its first occurrence is inside them. */
  lemma FirstIdxFound(lines: seq<Line>, t: string)
    ensures FirstIdx(lines, t) < |lines| <==> Term(t) in lines
  {
  }

  lemma {:induction false} ClustersMonotone(lines: seq<Line>, i: nat)
    requires i <= |lines|
    ensures ClustersAfter(lines[..i]) <= ClustersAfter(lines)
    decreases |lines|
  {
    if i < |lines| {
      var init := lines[..|lines| - 1];
      assert init[..i] == lines[..i];
      ClustersMonotone(init, i);
    } else {
      assert lines[..i] == lines;
    }
  }

  /** A term goes to `fixedTop` when the last header before its first occurrence is `[fixed-top]`,
      and otherwise to the cluster opened last before it (the default cluster before any header). */
  lemma ParseRouting(lines: seq<Line>)
    ensures var st := ParseLines(lines);
      && (forall t :: t in st.fixedTop <==>
            FirstIdx(lines, t) < |lines| && InFixedAfter(lines[..FirstIdx(lines, t)]))
      && (forall t, k :: 0 <= k < |st.clusters| ==>
            (t in st.clusters[k] <==>
              FirstIdx(lines, t) < |lines| && !InFixedAfter(lines[..FirstIdx(lines, t)])
              && ClustersAfter(lines[..FirstIdx(lines, t)]) == k + 1))
  {
    RoutingFixed(lines);
    RoutingClusters(lines);
  }

  /** Terms seen before the last line keep their first occurrence and the prefix before it. */
  lemma PrefixStable(lines: seq<Line>)
    requires |lines| > 0
    ensures forall t :: FirstIdx(lines[..|lines| - 1], t) < |lines| - 1 ==>
      && FirstIdx(lines, t) == FirstIdx(lines[..|lines| - 1], t)
      && lines[..FirstIdx(lines, t)] == lines[..|lines| - 1][..FirstIdx(lines[..|lines| - 1], t)]
  {
    var init := lines[..|lines| - 1];
    forall t | FirstIdx(init, t) < |init|
      ensures FirstIdx(lines, t) == FirstIdx(init, t)
      ensures lines[..FirstIdx(lines, t)] == init[..FirstIdx(init, t)]
    {
      FirstIdxStable(lines, t);
    }
  }

  lemma {:induction false} RoutingFixed(lines: seq<Line>)
    ensures var st := ParseLines(lines);
      forall t :: t in st.fixedTop <==>
        FirstIdx(lines, t) < |lines| && InFixedAfter(lines[..FirstIdx(lines, t)])
  {
    if |lines| > 0 {
      var init := lines[..|lines| - 1];
      RoutingFixed(init);
      ParseSeen(init);
      ParseShape(init);
      PrefixStable(lines);
      forall t
        ensures t in ParseLines(lines).fixedTop <==>
          FirstIdx(lines, t) < |lines| && InFixedAfter(lines[..FirstIdx(lines, t)])
      {
        RoutingFixedStep(lines, t);
      }
    }
  }

  /** What the inductive step of `RoutingFixed` knows about all lines but the last. */
  ghost predicate FixedContext(lines: seq<Line>)
    requires |lines| > 0
  {
    var init := lines[..|lines| - 1];
    var st0 := ParseLines(init);
    && Consistent(st0)
    && (forall u :: u in st0.seen <==> Term(u) in init)
    && st0.inFixed == InFixedAfter(init)
    && (forall u :: u in st0.fixedTop <==> FirstIdx(init, u) < |init| && InFixedAfter(init[..FirstIdx(init, u)]))
    && (forall u :: FirstIdx(init, u) < |init| ==>
          && FirstIdx(lines, u) == FirstIdx(init, u)
          && lines[..FirstIdx(lines, u)] == init[..FirstIdx(init, u)])
  }

  /** One term in the inductive step of `RoutingFixed`. */
  lemma RoutingFixedStep(lines: seq<Line>, t: string)
    requires |lines| > 0 && FixedContext(lines)
    ensures t in ParseLines(lines).fixedTop <==>
      FirstIdx(lines, t) < |lines| && InFixedAfter(lines[..FirstIdx(lines, t)])
  {
    var n := |lines| - 1;
    var init := lines[..n];
    var st0 := ParseLines(init);
    var st := ParseLines(lines);
    var isNew := lines[n].Term? && lines[n].text !in st0.seen;
    if FirstIdx(init, t) < n {
      assert t in st0.seen;
      if isNew && st0.inFixed {
        assert st.fixedTop == st0.fixedTop + [lines[n].text];
      }
    } else if isNew && lines[n].text == t {
      assert FirstIdx(lines, t) == n;
    }
  }

  lemma {:induction false} RoutingClusters(lines: seq<Line>)
    ensures var st := ParseLines(lines);
      forall t, k :: 0 <= k < |st.clusters| ==>
        (t in st.clusters[k] <==>
          FirstIdx(lines, t) < |lines| && !InFixedAfter(lines[..FirstIdx(lines, t)])
          && ClustersAfter(lines[..FirstIdx(lines, t)]) == k + 1)
  {
    if |lines| > 0 {
      var n := |lines| - 1;
      var init := lines[..n];
      RoutingClusters(init);
      ParseSeen(init);
      ParseShape(init);
      PrefixStable(lines);
      assert StepContext(lines);
      forall t, k | 0 <= k < |ParseLines(lines).clusters|
        ensures t in ParseLines(lines).clusters[k] <==> RoutedTo(lines, t, k)
      {
        RoutingClusterStep(lines, t, k);
      }
    }
  }

  /** `t`'s first occurrence places it in cluster `k`. */
  ghost predicate RoutedTo(lines: seq<Line>, t: string, k: nat) {
    FirstIdx(lines, t) < |lines| && !InFixedAfter(lines[..FirstIdx(lines, t)])
    && ClustersAfter(lines[..FirstIdx(lines, t)]) == k + 1
  }

  /** What the inductive step of `RoutingClusters` knows about all lines but the last. */
  ghost predicate StepContext(lines: seq<Line>)
    requires |lines| > 0
  {
    var init := lines[..|lines| - 1];
    var st0 := ParseLines(init);
    && Consistent(st0)
    && (forall u :: u in st0.seen <==> Term(u) in init)
    && |st0.clusters| == ClustersAfter(init) && st0.inFixed == InFixedAfter(init)
    && (forall u, j :: 0 <= j < |st0.clusters| ==> (u in st0.clusters[j] <==> RoutedTo(init, u, j)))
    && (forall u :: FirstIdx(init, u) < |init| ==>
          && FirstIdx(lines, u) == FirstIdx(init, u)
          && lines[..FirstIdx(lines, u)] == init[..FirstIdx(init, u)])
  }

  /** One term and one cluster in the inductive step of `RoutingClusters`. */
  lemma RoutingClusterStep(lines: seq<Line>, t: string, k: nat)
    requires |lines| > 0 && StepContext(lines)
    requires k < |ParseLines(lines).clusters|
    ensures t in ParseLines(lines).clusters[k] <==> RoutedTo(lines, t, k)
  {
    var n := |lines| - 1;
    var init := lines[..n];
    var st0 := ParseLines(init);
    if FirstIdx(init, t) < n {
      ClusterStepEarlier(lines, t, k);
    } else if lines[n] == Term(t) && t !in st0.seen {
      ClusterStepNew(lines, t, k);
    } else {
      ClusterStepAbsent(lines, t, k);
    }
  }

  /** A term not read in any line is in no cluster. */
  lemma ClusterStepAbsent(lines: seq<Line>, t: string, k: nat)
    requires |lines| > 0 && StepContext(lines)
    requires FirstIdx(lines[..|lines| - 1], t) == |lines| - 1
    requires !(lines[|lines| - 1] == Term(t) && t !in ParseLines(lines[..|lines| - 1]).seen)
    requires k < |ParseLines(lines).clusters|
    ensures t !in ParseLines(lines).clusters[k] && !RoutedTo(lines, t, k)
  {
    var n := |lines| - 1;
    var init := lines[..n];
    var st0 := ParseLines(init);
    var st := ParseLines(lines);
    assert st == Step(st0, lines[n]);
    FirstIdxFound(init, t);
    assert t !in st0.seen;
    assert FirstIdx(lines, t) == |lines|;
    assert t !in st0.fixedTop + Flatten(st0.clusters);
    FlattenMember(st0.clusters, t);
    if k < |st0.clusters| {
      assert t !in st0.clusters[k];
    }
  }

  /** A term first read before the last line stays where it was routed. */
  lemma ClusterStepEarlier(lines: seq<Line>, t: string, k: nat)
    requires |lines| > 0 && StepContext(lines)
    requires FirstIdx(lines[..|lines| - 1], t) < |lines| - 1
    requires k < |ParseLines(lines).clusters|
    ensures t in ParseLines(lines).clusters[k] <==> RoutedTo(lines, t, k)
  {
    var n := |lines| - 1;
    var init := lines[..n];
    var st0 := ParseLines(init);
    var st := ParseLines(lines);
    assert st == Step(st0, lines[n]);
    assert t in st0.seen;
    assert RoutedTo(lines, t, k) == RoutedTo(init, t, k);
    if k < |st0.clusters| {
      if lines[n].Term? && lines[n].text !in st0.seen && !st0.inFixed && k == |st0.clusters| - 1 {
        assert st.clusters[k] == st0.clusters[k] + [lines[n].text];
      }
    } else {
      assert st.clusters[k] == [];
      ClustersMonotone(init, FirstIdx(init, t));
    }
  }

  /** A term first read on the last line joins the cluster open there. */
  lemma ClusterStepNew(lines: seq<Line>, t: string, k: nat)
    requires |lines| > 0 && StepContext(lines)
    requires lines[|lines| - 1] == Term(t) && t !in ParseLines(lines[..|lines| - 1]).seen
    requires k < |ParseLines(lines).clusters|
    ensures t in ParseLines(lines).clusters[k] <==> RoutedTo(lines, t, k)
  {
    var n := |lines| - 1;
    var init := lines[..n];
    var st0 := ParseLines(init);
    var st := ParseLines(lines);
    assert st == Step(st0, lines[n]);
    assert FirstIdx(lines, t) == n;
    if !st0.inFixed && k == |st0.clusters| - 1 {
      assert st.clusters[k] == st0.clusters[k] + [t];
    } else if !st0.inFixed {
      assert st.clusters[k] == st0.clusters[k];
      assert t !in st0.clusters[k] by { FlattenMember(st0.clusters, t); }
    } else if k < |st0.clusters| {
      assert t !in st0.clusters[k] by { FlattenMember(st0.clusters, t); }
    }
  }

  lemma OrderTransfer(init: seq<Line>, lines: seq<Line>, list: seq<string>)
    requires InFileOrder(init, list)
    requires forall x :: x in list ==> FirstIdx(lines, x) == FirstIdx(init, x)
    ensures InFileOrder(lines, list)
  {
    forall a, b | 0 <= a < b < |list| ensures FirstIdx(lines, list[a]) < FirstIdx(lines, list[b]) {
      assert list[a] in list && list[b] in list;
    }
  }

  lemma OrderAppend(lines: seq<Line>, list: seq<string>, t: string)
    requires InFileOrder(lines, list)
    requires forall x :: x in list ==> FirstIdx(lines, x) < FirstIdx(lines, t)
    ensures InFileOrder(lines, list + [t])
  {
    var l := list + [t];
    forall a, b | 0 <= a < b < |l| ensures FirstIdx(lines, l[a]) < FirstIdx(lines, l[b]) {
      assert l[a] == list[a] && list[a] in list;
    }
  }

  /** Within `fixedTop` and within each cluster, terms keep the order of their first occurrence. */
  lemma {:induction false} ParseOrder(lines: seq<Line>)
    ensures var st := ParseLines(lines);
      && InFileOrder(lines, st.fixedTop)
      && forall k :: 0 <= k < |st.clusters| ==> InFileOrder(lines, st.clusters[k])
  {
    if |lines| > 0 {
      var n := |lines| - 1;
      var init := lines[..n];
      ParseOrder(init);
      OrderKept(lines);
      var st0 := ParseLines(init);
      var st := ParseLines(lines);
      assert st == Step(st0, lines[n]);
      if lines[n].Term? && lines[n].text !in st0.seen {
        OrderNewTerm(lines);
      } else if lines[n].SectionHeader? && !lines[n].isFixedTop {
        assert st.fixedTop == st0.fixedTop && st.clusters == st0.clusters + [[]];
        assert InFileOrder(lines, []);
      } else {
        assert st.fixedTop == st0.fixedTop && st.clusters == st0.clusters;
      }
    }
  }

  /** The lists collected before the last line stay in file order once it is added. */
  lemma OrderKept(lines: seq<Line>)
    requires |lines| > 0
    requires var st0 := ParseLines(lines[..|lines| - 1]);
      && InFileOrder(lines[..|lines| - 1], st0.fixedTop)
      && forall k :: 0 <= k < |st0.clusters| ==> InFileOrder(lines[..|lines| - 1], st0.clusters[k])
    ensures var st0 := ParseLines(lines[..|lines| - 1]);
      && InFileOrder(lines, st0.fixedTop)
      && forall k :: 0 <= k < |st0.clusters| ==> InFileOrder(lines, st0.clusters[k])
  {
    var init := lines[..|lines| - 1];
    ParseSeen(init);
    var st0 := ParseLines(init);
    forall t | t in st0.seen
      ensures FirstIdx(lines, t) == FirstIdx(init, t) < |init|
    {
      FirstIdxFound(init, t);
      FirstIdxStable(lines, t);
    }
    assert forall t :: t in st0.fixedTop ==> t in st0.seen;
    OrderTransfer(init, lines, st0.fixedTop);
    forall k | 0 <= k < |st0.clusters|
      ensures InFileOrder(lines, st0.clusters[k])
    {
      forall t | t in st0.clusters[k] ensures t in st0.seen {
        FlattenMember(st0.clusters, t);
      }
      OrderTransfer(init, lines, st0.clusters[k]);
    }
  }

  /** A new term read from the last line goes after everything collected before it. */
  lemma OrderNewTerm(lines: seq<Line>)
    requires |lines| > 0
    requires lines[|lines| - 1].Term? && lines[|lines| - 1].text !in ParseLines(lines[..|lines| - 1]).seen
    requires var st0 := ParseLines(lines[..|lines| - 1]);
      && InFileOrder(lines, st0.fixedTop)
      && forall k :: 0 <= k < |st0.clusters| ==> InFileOrder(lines, st0.clusters[k])
    ensures var st := ParseLines(lines);
      && InFileOrder(lines, st.fixedTop)
      && forall k :: 0 <= k < |st.clusters| ==> InFileOrder(lines, st.clusters[k])
  {
    var n := |lines| - 1;
    var init := lines[..n];
    ParseSeen(init);
    var st0 := ParseLines(init);
    var st := ParseLines(lines);
    assert st == Step(st0, lines[n]);
    var t := lines[n].text;
    forall x | x in st0.seen
      ensures FirstIdx(lines, x) < n
    {
      FirstIdxFound(init, x);
      FirstIdxStable(lines, x);
    }
    assert FirstIdx(lines, t) == n;
    if st0.inFixed {
      OrderAppend(lines, st0.fixedTop, t);
      assert st.fixedTop == st0.fixedTop + [t] && st.clusters == st0.clusters;
    } else {
      var last := |st0.clusters| - 1;
      forall x | x in st0.clusters[last] ensures x in st0.seen {
        FlattenMember(st0.clusters, x);
      }
      OrderAppend(lines, st0.clusters[last], t);
      assert st.fixedTop == st0.fixedTop && st.clusters == st0.clusters[last := st0.clusters[last] + [t]];
    }
  }

  // ---------------------------------------------------------------------
  // The loader

  lemma ParseLinesSnoc(lines: seq<Line>, i: nat)
    requires i < |lines|
    ensures ParseLines(lines[..i + 1]) == Step(ParseLines(lines[..i]), lines[i])
  {
    assert lines[..i + 1][..i] == lines[..i];
  }

  /** One more raw line read moves the fold on by one `Step`. */
  lemma ParseRawsSnoc(raws: seq<string>, i: nat, st: ParseState)
    requires i < |raws|
    requires ParseLines(ReadLines(raws)[..i]) == st
    ensures ParseLines(ReadLines(raws)[..i + 1]) == Step(st, ReadLine(raws[i]))
  {
    ParseLinesSnoc(ReadLines(raws), i);
  }

  /** What the loader hands on: distinct terms, fixed-top terms first and then the clusters in
      order, no empty cluster, exactly the terms some line reads as, and the no-shuffle flag set
      exactly when some line is the directive. */
  lemma ParseResult(text: string)
    ensures var (terms, ordering) := Parse(text);
      && Distinct(terms)
      && terms == ordering.fixedTop + Flatten(ordering.randomClusters)
      && (forall k :: 0 <= k < |ordering.randomClusters| ==> |ordering.randomClusters[k]| > 0)
      && (forall t :: t in terms <==> Term(t) in ReadLines(SplitLines(text)))
      && (ordering.noShuffle <==> NoShuffleDirective in ReadLines(SplitLines(text)))
  {
    var lines := ReadLines(SplitLines(text));
    ParseSeen(lines);
    ParseShape(lines);
    var st := ParseLines(lines);
    assert AllTerms(st) == Parse(text).0;
    assert HasDirective(lines) <==> NoShuffleDirective in lines;
  }

  /** One pass of the loader's `forEach` over the state variables it shares with the loop. */
  method HandleLine(line: Line, fixedTop: seq<string>, randomClusters: seq<seq<string>>, seen: set<string>,
                    inFixed: bool, noShuffle: bool)
    returns (fixedTop': seq<string>, randomClusters': seq<seq<string>>, seen': set<string>,
             inFixed': bool, noShuffle': bool)
    requires |randomClusters| >= 1
    ensures ParseState(fixedTop', randomClusters', seen', inFixed', noShuffle')
         == Step(ParseState(fixedTop, randomClusters, seen, inFixed, noShuffle), line)
  {
    fixedTop', randomClusters', seen', inFixed', noShuffle' := fixedTop, randomClusters, seen, inFixed, noShuffle;
    var currentClusterIndex := |randomClusters| - 1;
    match line {
      case Blank =>
      case NoShuffleDirective =>
        noShuffle' := true;
      case SectionHeader(fixed) =>
        if fixed {
          inFixed' := true;
        } else {
          inFixed' := false;
          randomClusters' := randomClusters + [[]];
        }
      case Term(t) =>
        if t !in seen {
          seen' := seen + {t};
          if inFixed {
            fixedTop' := fixedTop + [t];
          } else {
            randomClusters' := randomClusters[currentClusterIndex := randomClusters[currentClusterIndex] + [t]];
          }
        }
    }
  }

  /** The parsing body of `loadTermsForActivity`: one pass over the lines with the
      loader's state variables, then the empty clusters are dropped. */
  method ParseTerms(text: string) returns (terms: seq<string>, ordering: TermOrdering)
    ensures (terms, ordering) == Parse(text)
  {
    var raws := SplitLines(text);
    ghost var lines := ReadLines(raws);
    var fixedTop: seq<string> := [];
    var randomClusters: seq<seq<string>> := [[]];
    var seen: set<string> := {};
    var inFixed := false;
    var noShuffle := false;
    var i := 0;
    while i < |raws|
      invariant 0 <= i <= |raws|
      invariant ParseLines(lines[..i]) == ParseState(fixedTop, randomClusters, seen, inFixed, noShuffle)
    {
      var line := ReadLine(raws[i]);
      ParseRawsSnoc(raws, i, ParseState(fixedTop, randomClusters, seen, inFixed, noShuffle));
      fixedTop, randomClusters, seen, inFixed, noShuffle :=
        HandleLine(line, fixedTop, randomClusters, seen, inFixed, noShuffle);
      i := i + 1;
    }
    assert lines[..i] == lines;
    var nonEmpty := NonEmptyClusters(randomClusters);
    terms := fixedTop + Flatten(nonEmpty);
    ordering := TermOrdering(fixedTop, nonEmpty, noShuffle);
  }

  /** An activity as far as the loader is concerned: where its terms come from and the ordering it stores. */
  class Activity {
    var termsFile: Option<string>
    var termOrdering: Option<TermOrdering>

    constructor (termsFile: Option<string>)
      ensures this.termsFile == termsFile && termOrdering == None
    {
      this.termsFile := termsFile;
      termOrdering := None;
    }
  }

  /** `!activity.termsFile`: no file name, or the empty one, which JavaScript treats as false. */
  predicate NoTermsFile(termsFile: Option<string>) {
    termsFile.None? || termsFile.value == ""
  }

  /** `loadTermsForActivity`: no terms file yields no terms and leaves the ordering alone;
      so does a failed load (`fetched` is `None`); otherwise the text is parsed and the ordering stored. */
  method LoadTermsForActivity(activity: Activity, fetched: Option<string>) returns (terms: seq<string>)
    modifies activity`termOrdering
    ensures NoTermsFile(activity.termsFile) || fetched.None? ==>
      terms == [] && activity.termOrdering == old(activity.termOrdering)
    ensures !NoTermsFile(activity.termsFile) && fetched.Some? ==>
      activity.termOrdering.Some? && (terms, activity.termOrdering.value) == Parse(fetched.value)
  {
    if activity.termsFile.None? || activity.termsFile.value == "" {
      return [];
    }
    if fetched.None? {
      return [];
    }
    var ordering;
    terms, ordering := ParseTerms(fetched.value);
    activity.termOrdering := Some(ordering);
  }

  /** The offline path of the main script: every trimmed line that is not blank is a term, in file
      order, with no directive, header or duplicate handling. */
  function OfflineTerms(text: string): (r: seq<string>)
    ensures "" !in r
    ensures forall t :: t != "" ==> multiset(r)[t] == multiset(TrimAll(SplitLines(text)))[t]
    ensures |r| == |SplitLines(text)| - multiset(TrimAll(SplitLines(text)))[""]
  {
    WithoutCounts(TrimAll(SplitLines(text)), "");
    NonBlank(TrimAll(SplitLines(text)))
  }

  /** `map(t => t.trim())`. */
  function TrimAll(raws: seq<string>): (r: seq<string>)
    ensures |r| == |raws| && forall j :: 0 <= j < |raws| ==> r[j] == Trim(raws[j])
  {
    seq(|raws|, j requires 0 <= j < |raws| => Trim(raws[j]))
  }

  /** `filter(t => t.length > 0)`: every non-blank entry as often as it occurs, no blank one. */
  function NonBlank(ls: seq<string>): seq<string> {
    Without(ls, "")
  }

  /** The entries of `s` other than `x`, in order. */
  function Without<T(==)>(s: seq<T>, x: T): seq<T> {
    if |s| == 0 then []
    else if s[0] != x then [s[0]] + Without(s[1..], x)
    else Without(s[1..], x)
  }

  /** The filter drops every `x` and keeps every other entry as often as it occurs. */
  lemma {:induction false} WithoutCounts<T>(s: seq<T>, x: T)
    ensures multiset(Without(s, x))[x] == 0
    ensures forall t {:trigger multiset(s)[t]} :: t != x ==> multiset(Without(s, x))[t] == multiset(s)[t]
    ensures |Without(s, x)| == |s| - multiset(s)[x]
  {
    if |s| > 0 {
      WithoutCounts(s[1..], x);
      assert s == [s[0]] + s[1..];
    }
  }

  /** The filter keeps the order: filtering a concatenation filters each part. */
  lemma {:induction false} WithoutConcat<T>(a: seq<T>, b: seq<T>, x: T)
    ensures Without(a + b, x) == Without(a, x) + Without(b, x)
  {
    if |a| == 0 {
      assert a + b == b;
    } else {
      WithoutConcat(a[1..], b, x);
      assert (a + b)[1..] == a[1..] + b;
      if a[0] != x {
        var wa, wb := Without(a[1..], x), Without(b, x);
        assert [a[0]] + (wa + wb) == [a[0]] + wa + wb;
      }
    }
  }
}
