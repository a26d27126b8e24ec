/** The deterministic part of the PageRank estimator
    (week2/pagerank/pagerank.py): the link filter of crawl, the transition
    model, and the iterative in-place computation of the ranks. Probabilities
    and ranks are exact reals. */
module PageRank {

  /** A page is named by its file name. */
  type Page = string

  /** A corpus maps each page to the set of pages it links to. */
  type Corpus = map<Page, set<Page>>

  /** A value per page: a probability distribution or a rank vector. */
  type Ranks = map<Page, real>

  /** iterate_pagerank stops after a sweep that moved no rank by more than this. */
  const Threshold: real := 0.001

  function Abs(x: real): real {
    if x < 0.0 then -x else x
  }

  /** keys lists every page of the corpus exactly once: the order in which
      the corpus dictionary is iterated. */
  predicate KeyOrder(corpus: Corpus, keys: seq<Page>) {
    && Distinct(keys)
    && (forall p :: p in corpus ==> p in keys)
    && (forall i :: 0 <= i < |keys| ==> keys[i] in corpus)
  }

  /** No page occurs twice in keys. */
  predicate Distinct(keys: seq<Page>) {
    forall i, j :: 0 <= i < j < |keys| ==> keys[i] != keys[j]
  }

  // ---------------------------------------------------------------------
  // crawl: the link filter

  /** No page links to itself, and every link names a page of the corpus. */
  predicate LinksClosed(corpus: Corpus) {
    forall p :: p in corpus ==> p !in corpus[p] && corpus[p] <= corpus.Keys
  }

  /** The filter of crawl: found maps each file name to the set of link
      targets its anchors name. Self links are dropped (line 39), and so are
      links to names that are not pages of the corpus (lines 42-46). */
  function Crawl(found: map<Page, set<Page>>): (corpus: Corpus)
    ensures corpus.Keys == found.Keys
    ensures LinksClosed(corpus)
    ensures forall p :: p in corpus ==> corpus[p] <= found[p]
    ensures forall p, q :: p in found && q in found[p] && q in found && q != p ==> q in corpus[p]
  {
    map p | p in found :: set q | q in found[p] - {p} && q in found
  }

  /** The filter keeps exactly the corpora that already satisfy what it
      establishes: it changes nothing on a closed corpus, so applying it
      twice is the same as applying it once. */
  lemma CrawlFixesClosed(found: map<Page, set<Page>>)
    ensures LinksClosed(found) <==> Crawl(found) == found
    ensures Crawl(Crawl(found)) == Crawl(found)
  {
    var c := Crawl(found);
    if LinksClosed(found) {
      forall p | p in found
        ensures c[p] == found[p]
      {
        assert found[p] <= c[p];
      }
    }
    var cc := Crawl(c);
    forall p | p in c
      ensures cc[p] == c[p]
    {
      assert c[p] <= cc[p];
    }
  }

  // ---------------------------------------------------------------------
  // Sums over a key order

  /** The values of m at the keys ks, added up. */
  function Sum(m: Ranks, ks: seq<Page>): real {
    if ks == [] then 0.0
    else Sum(m, ks[..|ks| - 1]) + (if ks[|ks| - 1] in m then m[ks[|ks| - 1]] else 0.0)
  }

  /** How many of the keys ks lie in s. */
  function CountIn(ks: seq<Page>, s: set<Page>): nat {
    if ks == [] then 0 else CountIn(ks[..|ks| - 1], s) + (if ks[|ks| - 1] in s then 1 else 0)
  }

  function Elems(ks: seq<Page>): set<Page> {
    set q | q in ks
  }

  /** Over distinct keys, counting the keys in s counts the elements of s among them. */
  lemma {:induction false} CountInDistinct(ks: seq<Page>, s: set<Page>)
    requires forall i, j :: 0 <= i < j < |ks| ==> ks[i] != ks[j]
    ensures CountIn(ks, s) == |s * Elems(ks)|
  {
    if ks != [] {
      var init, last := ks[..|ks| - 1], ks[|ks| - 1];
      CountInDistinct(init, s);
      var common := s * Elems(init);
      ElemsLast(ks);
      if last in s {
        assert s * Elems(ks) == common + {last};
        assert |common + {last}| == |common| + 1;
      } else {
        assert s * Elems(ks) == common;
      }
    }
  }

  /** The last of distinct keys is new: the keys are the earlier ones plus it. */
  lemma ElemsLast(ks: seq<Page>)
    requires ks != [] && forall i, j :: 0 <= i < j < |ks| ==> ks[i] != ks[j]
    ensures Elems(ks) == Elems(ks[..|ks| - 1]) + {ks[|ks| - 1]}
    ensures ks[|ks| - 1] !in Elems(ks[..|ks| - 1])
  {
    var init, last := ks[..|ks| - 1], ks[|ks| - 1];
    assert ks == init + [last];
    forall i | 0 <= i < |init|
      ensures init[i] != last
    {
      assert init[i] == ks[i];
    }
  }

  /** The corpus has as many pages as its key order has entries. */
  lemma KeyCount(corpus: Corpus, keys: seq<Page>)
    requires KeyOrder(corpus, keys)
    ensures |corpus| == |keys|
  {
    CountInDistinct(keys, corpus.Keys);
    assert corpus.Keys * Elems(keys) == corpus.Keys;
    CountAll(keys, corpus.Keys);
  }

  lemma {:induction false} CountAll(ks: seq<Page>, s: set<Page>)
    requires forall q :: q in ks ==> q in s
    ensures CountIn(ks, s) == |ks|
  {
    if ks != [] {
      CountAll(ks[..|ks| - 1], s);
    }
  }

  /** A sum of equal ranks. */
  lemma {:induction false} SumConstant(m: Ranks, ks: seq<Page>, v: real)
    requires forall q :: q in ks ==> q in m && m[q] == v
    ensures Sum(m, ks) == (|ks| as real) * v
  {
    if ks != [] {
      SumConstant(m, ks[..|ks| - 1], v);
    }
  }

  /** n copies of x added up one at a time. */
  function Times(n: nat, x: real): real {
    if n == 0 then 0.0 else Times(n - 1, x) + x
  }

  lemma {:induction false} TimesIs(n: nat, x: real)
    ensures Times(n, x) == (n as real) * x
  {
    if n > 0 {
      TimesIs(n - 1, x);
      assert (n as real) * x == ((n - 1) as real) * x + x;
    }
  }

  /** A sum of a baseline plus an extra for the keys in s. */
  lemma {:induction false} SumBaselinePlusExtra(m: Ranks, ks: seq<Page>, base: real, extra: real, s: set<Page>)
    requires forall q :: q in ks ==> q in m && m[q] == base + (if q in s then extra else 0.0)
    ensures Sum(m, ks) == Times(|ks|, base) + Times(CountIn(ks, s), extra)
  {
    if ks != [] {
      SumBaselinePlusExtra(m, ks[..|ks| - 1], base, extra, s);
    }
  }

  // ---------------------------------------------------------------------
  // transition_model

  lemma QuotientNonNegative(x: real, y: real)
    requires y > 0.0
    ensures x >= 0.0 ==> x / y >= 0.0
  {
  }

  /** The distribution transition_model builds once it is settled which
      links the damping mass goes to: every page gets the baseline
      (1 - d) / N and each page in links gets d / |corpus[page]| on top.
      A page without links gives the uniform distribution 1 / N. */
  function Damped(corpus: Corpus, keys: seq<Page>, page: Page, links: set<Page>, d: real): (dist: Ranks)
    requires KeyOrder(corpus, keys) && page in corpus
    ensures dist.Keys == corpus.Keys
    ensures 0.0 <= d <= 1.0 ==> forall q :: q in dist ==> dist[q] >= 0.0
  {
    var n := |keys| as real;
    var t := |corpus[page]|;
    if t > 0 then
      var base, share := (1.0 - d) / n, d / (t as real);
      QuotientNonNegative(1.0 - d, n);
      QuotientNonNegative(d, t as real);
      SpreadNonNegative(corpus, base, share, links);
      Spread(corpus, base, share, links)
    else
      QuotientNonNegative(1.0, n);
      SpreadNonNegative(corpus, 1.0 / n, 0.0, {});
      Spread(corpus, 1.0 / n, 0.0, {})
  }

  /** The distribution transition_model returns as the code computes it:
      the damping mass goes to the links of the LAST page in key order,
      because the loop of line 66 rebinds `page` and line 69 then iterates
      that page's links, while the shares are still d / |corpus[page]| for
      the page asked about (line 62). */
  function Transition(corpus: Corpus, keys: seq<Page>, page: Page, d: real): (dist: Ranks)
    requires KeyOrder(corpus, keys) && page in corpus
    ensures dist.Keys == corpus.Keys
    ensures 0.0 <= d <= 1.0 ==> forall q :: q in dist ==> dist[q] >= 0.0
  {
    Damped(corpus, keys, page, corpus[keys[|keys| - 1]], d)
  }

  /** Every page of the corpus gets base, and the pages in links get share
      on top of it. */
  function Spread(corpus: Corpus, base: real, share: real, links: set<Page>): (dist: Ranks)
    ensures dist.Keys == corpus.Keys
  {
    map q | q in corpus :: base + (if q in links then share else 0.0)
  }

  lemma SpreadNonNegative(corpus: Corpus, base: real, share: real, links: set<Page>)
    ensures base >= 0.0 && share >= 0.0 ==>
              forall q :: q in Spread(corpus, base, share, links) ==> Spread(corpus, base, share, links)[q] >= 0.0
  {
  }

  lemma SpreadIs(corpus: Corpus, dist: Ranks, base: real, share: real, links: set<Page>)
    requires dist.Keys == corpus.Keys
    requires forall q :: q in dist ==> dist[q] == base + (if q in links then share else 0.0)
    ensures dist == Spread(corpus, base, share, links)
  {
  }

  /** A loop `for page in corpus: pages[page] = v` of transition_model,
      run in key order; it also yields the page the loop variable `page`
      is left bound to. */
  method FillUniform(corpus: Corpus, keys: seq<Page>, page: Page, v: real) returns (pages: Ranks, current: Page)
    requires KeyOrder(corpus, keys) && page in corpus
    ensures pages == Spread(corpus, v, 0.0, {})
    ensures current == keys[|keys| - 1]
  {
    assert page in keys;
    pages := map[];
    current := page;
    for k := 0 to |keys|
      invariant k > 0 ==> current == keys[k - 1]
      invariant forall q :: q in pages <==> q in keys[..k]
      invariant forall q :: q in pages ==> pages[q] == v
    {
      current := keys[k];
      pages := pages[current := v];
    }
    assert keys[..|keys|] == keys;
    SpreadIs(corpus, pages, v, 0.0, {});
  }

  /** The loop `for page in corpus[page]: pages[page] += share`, over the
      links in some order. */
  method AddShares(corpus: Corpus, base: real, share: real, links: set<Page>, start: Ranks) returns (pages: Ranks)
    requires links <= corpus.Keys
    requires start == Spread(corpus, base, 0.0, {})
    ensures pages == Spread(corpus, base, share, links)
  {
    pages := start;
    var rest := links;
    while rest != {}
      invariant rest <= links
      invariant pages.Keys == corpus.Keys
      invariant forall q :: q in pages ==>
                  pages[q] == base + (if q in links - rest then share else 0.0)
      decreases rest
    {
      var q :| q in rest;
      pages := pages[q := pages[q] + share];
      rest := rest - {q};
    }
    assert links - rest == links;
    SpreadIs(corpus, pages, base, share, links);
  }

  /** transition_model(corpus, page, damping_factor). */
  method TransitionModel(corpus: Corpus, keys: seq<Page>, page: Page, d: real) returns (pages: Ranks)
    requires KeyOrder(corpus, keys) && page in corpus
    requires corpus[keys[|keys| - 1]] <= corpus.Keys
    ensures pages == Transition(corpus, keys, page, d)
  {
    var n := |keys| as real;  // len(corpus): keys lists each page once
    var transitionPages := |corpus[page]|;
    if transitionPages > 0 {
      var base := (1.0 - d) / n;
      // the loop variable of line 66 reuses the name `page`
      var filled, current := FillUniform(corpus, keys, page, base);
      pages := AddShares(corpus, base, d / (transitionPages as real), corpus[current], filled);
    } else {
      var last;
      pages, last := FillUniform(corpus, keys, page, 1.0 / n);
    }
  }

  /** A spread over a key order adds up to N copies of base plus one share
      for each link that is a page of the corpus. */
  lemma {:induction false} SpreadSum(corpus: Corpus, keys: seq<Page>, base: real, share: real, links: set<Page>)
    requires KeyOrder(corpus, keys) && links <= corpus.Keys
    ensures Sum(Spread(corpus, base, share, links), keys) == Times(|keys|, base) + Times(|links|, share)
  {
    assert links <= Elems(keys);
    CountInDistinct(keys, links);
    assert links * Elems(keys) == links;
    SumBaselinePlusExtra(Spread(corpus, base, share, links), keys, base, share, links);
  }

  /** The arithmetic of the damped distribution: N shares of (1 - d) / N
      and l shares of d / t come to (1 - d) + d * l / t. */
  lemma DampedTotal(n: real, t: real, l: real, d: real)
    requires n > 0.0 && t > 0.0
    ensures n * ((1.0 - d) / n) + l * (d / t) == (1.0 - d) + d * l / t
  {
    assert n * ((1.0 - d) / n) == 1.0 - d;
    assert l * (d / t) == d * l / t;
  }

  /** The damped total is 1 exactly when d is 0 or l equals t. */
  lemma DampedTotalIsOne(t: real, l: real, d: real)
    requires t > 0.0
    ensures (1.0 - d) + d * l / t == 1.0 <==> d == 0.0 || l == t
  {
    assert d * l / t - d == d * (l - t) / t;
  }

  /** The total mass of a spread over n pages with base (1 - d) / n and
      share d / t on l of them. */
  function DampedMass(n: real, t: real, l: real, d: real): (v: real)
    requires n > 0.0 && t > 0.0
    ensures v == (1.0 - d) + d * l / t
    ensures v == 1.0 <==> d == 0.0 || l == t
  {
    DampedTotal(n, t, l, d);
    DampedTotalIsOne(t, l, d);
    n * ((1.0 - d) / n) + l * (d / t)
  }

  /** The total of a damped distribution whose links are pages of the
      corpus. */
  lemma {:induction false} DampedSum(corpus: Corpus, keys: seq<Page>, page: Page, links: set<Page>, d: real)
    requires KeyOrder(corpus, keys) && page in corpus && links <= corpus.Keys
    ensures |corpus[page]| == 0 ==> Sum(Damped(corpus, keys, page, links, d), keys) == 1.0
    ensures |corpus[page]| > 0 ==>
              Sum(Damped(corpus, keys, page, links, d), keys)
              == DampedMass(|keys| as real, |corpus[page]| as real, |links| as real, d)
  {
    DampedIsSpread(corpus, keys, page, links, d);
    assert page in keys;
    if |corpus[page]| > 0 {
      SpreadSum(corpus, keys, (1.0 - d) / (|keys| as real), d / (|corpus[page]| as real), links);
      DampedTimes(|keys|, |corpus[page]|, |links|, d);
    } else {
      UniformSpreadTotal(corpus, keys);
    }
  }

  /** Damped is a spread with the baseline and share of transition_model. */
  lemma DampedIsSpread(corpus: Corpus, keys: seq<Page>, page: Page, links: set<Page>, d: real)
    requires KeyOrder(corpus, keys) && page in corpus
    ensures |corpus[page]| > 0 ==>
              Damped(corpus, keys, page, links, d)
              == Spread(corpus, (1.0 - d) / (|keys| as real), d / (|corpus[page]| as real), links)
    ensures |corpus[page]| == 0 ==>
              Damped(corpus, keys, page, links, d) == Spread(corpus, 1.0 / (|keys| as real), 0.0, {})
  {}

  /** N baselines of (1 - d) / N and l shares of d / t, added up one at a
      time, come to the damped mass. */
  lemma DampedTimes(n: nat, t: nat, l: nat, d: real)
    requires n > 0 && t > 0
    ensures Times(n, (1.0 - d) / (n as real)) + Times(l, d / (t as real))
            == DampedMass(n as real, t as real, l as real, d)
  {
    TimesIs(n, (1.0 - d) / (n as real));
    TimesIs(l, d / (t as real));
  }

  lemma {:induction false} UniformSpreadTotal(corpus: Corpus, keys: seq<Page>)
    requires KeyOrder(corpus, keys) && |keys| > 0
    ensures Sum(Spread(corpus, 1.0 / (|keys| as real), 0.0, {}), keys) == 1.0
  {
    UniformSum(Spread(corpus, 1.0 / (|keys| as real), 0.0, {}), keys);
  }

  /** N ranks of 1 / N add up to 1. */
  lemma {:induction false} UniformSum(m: Ranks, keys: seq<Page>)
    requires |keys| > 0
    requires forall q :: q in keys ==> q in m && m[q] == 1.0 / (|keys| as real)
    ensures Sum(m, keys) == 1.0
  {
    SumConstant(m, keys, 1.0 / (|keys| as real));
  }

  /** The total of the distribution: 1 for a page without links; otherwise
      DampedMass, that is (1 - d) + d * |links of the last page| / |links
      of page|, which is 1 exactly when d is 0 or the two pages have equally
      many links (in particular when page is the last page). */
  lemma {:induction false} TransitionSum(corpus: Corpus, keys: seq<Page>, page: Page, d: real)
    requires KeyOrder(corpus, keys) && page in corpus
    requires corpus[keys[|keys| - 1]] <= corpus.Keys
    ensures |corpus[page]| == 0 ==> Sum(Transition(corpus, keys, page, d), keys) == 1.0
    ensures |corpus[page]| > 0 ==>
              Sum(Transition(corpus, keys, page, d), keys)
              == DampedMass(|keys| as real, |corpus[page]| as real, |corpus[keys[|keys| - 1]]| as real, d)
    ensures Sum(Transition(corpus, keys, page, d), keys) == 1.0 <==>
              |corpus[page]| == 0 || d == 0.0 || |corpus[keys[|keys| - 1]]| == |corpus[page]|
  {
    DampedSum(corpus, keys, page, corpus[keys[|keys| - 1]], d);
  }

  /** The distribution the docstring describes: the damping mass d is
      shared among the links of the page asked about. */
  function IntendedTransition(corpus: Corpus, keys: seq<Page>, page: Page, d: real): (dist: Ranks)
    requires KeyOrder(corpus, keys) && page in corpus
    ensures dist.Keys == corpus.Keys
    ensures 0.0 <= d <= 1.0 ==> forall q :: q in dist ==> dist[q] >= 0.0
  {
    Damped(corpus, keys, page, corpus[page], d)
  }

  /** The intended distribution sums to 1 whenever the page's links are
      pages of the corpus, which the crawl filter guarantees. */
  lemma {:induction false} IntendedTransitionSumsToOne(corpus: Corpus, keys: seq<Page>, page: Page, d: real)
    requires KeyOrder(corpus, keys) && page in corpus
    requires corpus[page] <= corpus.Keys
    ensures Sum(IntendedTransition(corpus, keys, page, d), keys) == 1.0
  {
    DampedSum(corpus, keys, page, corpus[page], d);
    if |corpus[page]| > 0 {
      assert Sum(IntendedTransition(corpus, keys, page, d), keys)
          == DampedMass(|keys| as real, |corpus[page]| as real, |corpus[page]| as real, d);
    }
  }

  /** The code as written computes the intended distribution when asked
      about the last page in key order. */
  lemma TransitionAgreesOnLastPage(corpus: Corpus, keys: seq<Page>, d: real)
    requires KeyOrder(corpus, keys) && |keys| > 0
    ensures Transition(corpus, keys, keys[|keys| - 1], d)
         == IntendedTransition(corpus, keys, keys[|keys| - 1], d)
  {
  }

  /** A crawled corpus of three pages (a links to b, b to c, c to a and b):
      asked about a, the code as written adds the damping mass to a and b,
      the links of c, and the total comes to 1 + d. */
  lemma TransitionCounterexample(d: real)
    ensures var corpus := map["a" := {"b"}, "b" := {"c"}, "c" := {"a", "b"}];
            var keys := ["a", "b", "c"];
            && LinksClosed(corpus) && KeyOrder(corpus, keys)
            && Transition(corpus, keys, "a", d)["a"] == (1.0 - d) / 3.0 + d
            && IntendedTransition(corpus, keys, "a", d)["a"] == (1.0 - d) / 3.0
            && Sum(Transition(corpus, keys, "a", d), keys) == 1.0 + d
  {
    var corpus := map["a" := {"b"}, "b" := {"c"}, "c" := {"a", "b"}];
    var keys := ["a", "b", "c"];
    assert corpus.Keys == {"a", "b", "c"};
    assert |corpus["a"]| == 1;
    assert |corpus["c"]| == 2;
    assert KeyOrder(corpus, keys);
    TransitionSum(corpus, keys, "a", d);
  }

  // ---------------------------------------------------------------------
  // iterate_pagerank

  /** The ranks are given for exactly the pages of the corpus. */
  predicate RanksOver(corpus: Corpus, keys: seq<Page>, rank: Ranks) {
    KeyOrder(corpus, keys) && rank.Keys == corpus.Keys
  }

  /** Every page of the key order has its links and a rank: what a sweep
      needs to look up. */
  predicate Ranked(corpus: Corpus, keys: seq<Page>, rank: Ranks) {
    forall i :: 0 <= i < |keys| ==> keys[i] in corpus && keys[i] in rank
  }

  /** What the first j pages in key order pass on to p: every page q other
      than p that links to p passes its current rank divided by its number
      of links. */
  function Inflow(corpus: Corpus, keys: seq<Page>, rank: Ranks, p: Page, j: nat): real
    requires Ranked(corpus, keys, rank) && j <= |keys|
  {
    if j == 0 then 0.0
    else
      var q := keys[j - 1];
      Inflow(corpus, keys, rank, p, j - 1)
        + (if q != p && p in corpus[q] then rank[q] / (|corpus[q]| as real) else 0.0)
  }

  /** Line 132: the share (1 - d) / N every page gets, plus d times what
      flows in from its neighbours. */
  function Damping(n: nat, d: real, inflow: real): real
    requires n > 0
  {
    (1.0 - d) / (n as real) + d * inflow
  }

  /** The rank line 132 gives p from the current ranks. */
  function NewRank(corpus: Corpus, keys: seq<Page>, d: real, rank: Ranks, p: Page): real
    requires Ranked(corpus, keys, rank) && |keys| > 0
  {
    Damping(|keys|, d, Inflow(corpus, keys, rank, p, |keys|))
  }

  /** The ranks once the first k pages of a sweep are updated. The update is
      in place: a page's new rank is computed from the already updated
      ranks of the pages before it. */
  function SweepTo(corpus: Corpus, keys: seq<Page>, d: real, rank: Ranks, k: nat): (next: Ranks)
    requires Ranked(corpus, keys, rank) && k <= |keys|
    ensures Ranked(corpus, keys, next)
  {
    if k == 0 then rank
    else
      var prev := SweepTo(corpus, keys, d, rank, k - 1);
      prev[keys[k - 1] := NewRank(corpus, keys, d, prev, keys[k - 1])]
  }

  /** A sweep gives ranks to the same pages as before. */
  lemma {:induction false} SweepToKeys(corpus: Corpus, keys: seq<Page>, d: real, rank: Ranks, k: nat)
    requires Ranked(corpus, keys, rank) && k <= |keys|
    ensures SweepTo(corpus, keys, d, rank, k).Keys == rank.Keys
  {
    if k > 0 {
      SweepToKeys(corpus, keys, d, rank, k - 1);
    }
  }

  /** One full sweep over the corpus. */
  function SweepOf(corpus: Corpus, keys: seq<Page>, d: real, rank: Ranks): (next: Ranks)
    requires RanksOver(corpus, keys, rank)
    ensures next.Keys == rank.Keys
  {
    SweepToKeys(corpus, keys, d, rank, |keys|);
    SweepTo(corpus, keys, d, rank, |keys|)
  }

  /** Some page's rank changed by more than the threshold. */
  predicate Moved(rank: Ranks, next: Ranks)
    requires rank.Keys == next.Keys
  {
    exists p :: p in rank && Abs(next[p] - rank[p]) > Threshold
  }

  /** The k-th update of a sweep. */
  lemma SweepToStep(corpus: Corpus, keys: seq<Page>, d: real, rank: Ranks, k: nat)
    requires Ranked(corpus, keys, rank) && k < |keys|
    ensures SweepTo(corpus, keys, d, rank, k + 1)
         == SweepTo(corpus, keys, d, rank, k)[keys[k] := NewRank(corpus, keys, d, SweepTo(corpus, keys, d, rank, k), keys[k])]
  {}

  /** An update of a sweep touches only the page it is for. */
  lemma SweepStepOther(corpus: Corpus, keys: seq<Page>, d: real, rank: Ranks, m: nat, i: nat)
    requires Distinct(keys) && Ranked(corpus, keys, rank) && 0 < m <= |keys| && i < |keys| && i != m - 1
    ensures SweepTo(corpus, keys, d, rank, m)[keys[i]] == SweepTo(corpus, keys, d, rank, m - 1)[keys[i]]
  {
    assert keys[i] != keys[m - 1];
  }

  /** The pages a sweep has not reached yet still hold their old rank. */
  lemma {:induction false} SweepToUntouched(corpus: Corpus, keys: seq<Page>, d: real, rank: Ranks, m: nat, i: nat)
    requires Distinct(keys) && Ranked(corpus, keys, rank) && m <= i < |keys|
    ensures SweepTo(corpus, keys, d, rank, m)[keys[i]] == rank[keys[i]]
    decreases m
  {
    if m == 0 {
      assert SweepTo(corpus, keys, d, rank, m) == rank;
    } else {
      SweepStepOther(corpus, keys, d, rank, m, i);
      SweepToUntouched(corpus, keys, d, rank, m - 1, i);
    }
  }

  /** A page a sweep has updated keeps the rank it got at its update. */
  lemma {:induction false} SweepToSettled(corpus: Corpus, keys: seq<Page>, d: real, rank: Ranks, k: nat, m: nat, i: nat)
    requires Distinct(keys) && Ranked(corpus, keys, rank) && i < k <= m <= |keys|
    ensures SweepTo(corpus, keys, d, rank, m)[keys[i]] == SweepTo(corpus, keys, d, rank, k)[keys[i]]
    decreases m
  {
    if m > k {
      SweepToSettled(corpus, keys, d, rank, k, m - 1, i);
      SweepStepOther(corpus, keys, d, rank, m, i);
    }
  }

  /** The sweep is Gauss-Seidel: the k-th page ends the sweep with the rank
      computed from the ranks after the first k updates, which are the new
      ranks of the pages before it and the old ranks of itself and the
      pages after it (SweepToSettled, SweepToUntouched). */
  lemma {:induction false} SweepIsInPlace(corpus: Corpus, keys: seq<Page>, d: real, rank: Ranks, k: nat)
    requires RanksOver(corpus, keys, rank) && k < |keys|
    ensures SweepOf(corpus, keys, d, rank)[keys[k]]
         == NewRank(corpus, keys, d, SweepTo(corpus, keys, d, rank, k), keys[k])
  {
    SweepToSettled(corpus, keys, d, rank, k + 1, |keys|, k);
    SweepToStep(corpus, keys, d, rank, k);
  }

  /** Lines 125-129: the sum over the other pages that link to p of their
      current rank divided by their number of links. */
  method SumLinks(corpus: Corpus, keys: seq<Page>, rank: Ranks, p: Page) returns (sumLinks: real)
    requires Ranked(corpus, keys, rank)
    ensures sumLinks == Inflow(corpus, keys, rank, p, |keys|)
  {
    sumLinks := 0.0;
    for j := 0 to |keys|
      invariant sumLinks == Inflow(corpus, keys, rank, p, j)
    {
      var other := keys[j];
      if p != other && p in corpus[other] {
        sumLinks := sumLinks + rank[other] / (|corpus[other]| as real);
      }
    }
  }

  /** The i-th update of a sweep moves its page by more than the threshold. */
  predicate UpdateMoved(corpus: Corpus, keys: seq<Page>, d: real, rank: Ranks, i: nat)
    requires Ranked(corpus, keys, rank) && i < |keys|
  {
    Abs(NewRank(corpus, keys, d, SweepTo(corpus, keys, d, rank, i), keys[i]) - rank[keys[i]]) > Threshold
  }

  /** One of the first k updates of a sweep moved its page by more than
      the threshold: the flag `looping` after k pages. */
  predicate MovedBefore(corpus: Corpus, keys: seq<Page>, d: real, rank: Ranks, k: nat)
    requires Ranked(corpus, keys, rank) && k <= |keys|
  {
    k > 0 && (MovedBefore(corpus, keys, d, rank, k - 1) || UpdateMoved(corpus, keys, d, rank, k - 1))
  }

  lemma {:induction false} MovedBeforeHas(corpus: Corpus, keys: seq<Page>, d: real, rank: Ranks, i: nat, k: nat)
    requires Ranked(corpus, keys, rank) && i < k <= |keys| && UpdateMoved(corpus, keys, d, rank, i)
    ensures MovedBefore(corpus, keys, d, rank, k)
    decreases k
  {
    if i < k - 1 {
      MovedBeforeHas(corpus, keys, d, rank, i, k - 1);
    }
  }

  lemma {:induction false} MovedBeforeWitness(corpus: Corpus, keys: seq<Page>, d: real, rank: Ranks, k: nat) returns (i: nat)
    requires Ranked(corpus, keys, rank) && k <= |keys| && MovedBefore(corpus, keys, d, rank, k)
    ensures i < k && UpdateMoved(corpus, keys, d, rank, i)
    decreases k
  {
    if UpdateMoved(corpus, keys, d, rank, k - 1) {
      i := k - 1;
    } else {
      i := MovedBeforeWitness(corpus, keys, d, rank, k - 1);
    }
  }

  /** A sweep moved some page by more than the threshold exactly when one
      of its updates did. */
  lemma {:induction false} SweepMoved(corpus: Corpus, keys: seq<Page>, d: real, rank: Ranks)
    requires RanksOver(corpus, keys, rank)
    ensures Moved(rank, SweepOf(corpus, keys, d, rank)) <==> MovedBefore(corpus, keys, d, rank, |keys|)
  {
    if Moved(rank, SweepOf(corpus, keys, d, rank)) {
      var p :| p in rank && Abs(SweepOf(corpus, keys, d, rank)[p] - rank[p]) > Threshold;
      assert p in keys;
      var i :| 0 <= i < |keys| && keys[i] == p;
      SweepIsInPlace(corpus, keys, d, rank, i);
      MovedBeforeHas(corpus, keys, d, rank, i, |keys|);
    }
    if MovedBefore(corpus, keys, d, rank, |keys|) {
      var i := MovedBeforeWitness(corpus, keys, d, rank, |keys|);
      SweepIsInPlace(corpus, keys, d, rank, i);
      assert keys[i] in rank;
    }
  }

  /** One pass of the `while looping` loop (lines 120-137): every page in
      key order gets its new rank, and the flag says whether some page
      moved by more than the threshold. */
  method Sweep(corpus: Corpus, keys: seq<Page>, d: real, rank: Ranks) returns (next: Ranks, looping: bool)
    requires RanksOver(corpus, keys, rank)
    ensures next == SweepOf(corpus, keys, d, rank)
    ensures next.Keys == rank.Keys
    ensures looping <==> Moved(rank, next)
  {
    next := rank;
    looping := false;
    for k := 0 to |keys|
      invariant next == SweepTo(corpus, keys, d, rank, k)
      invariant looping <==> MovedBefore(corpus, keys, d, rank, k)
    {
      next, looping := UpdatePage(corpus, keys, d, rank, k, next, looping);
    }
    SweepMoved(corpus, keys, d, rank);
  }

  /** The body of the `for page in corpus` loop (lines 123-137) for the
      k-th page: its new rank from the ranks as they stand, and the flag
      raised when it moves by more than the threshold. */
  method UpdatePage(corpus: Corpus, keys: seq<Page>, d: real, rank: Ranks, k: nat, ranks: Ranks, moved: bool)
    returns (next: Ranks, looping: bool)
    requires Distinct(keys) && Ranked(corpus, keys, rank) && k < |keys|
    requires ranks == SweepTo(corpus, keys, d, rank, k)
    requires moved <==> MovedBefore(corpus, keys, d, rank, k)
    ensures next == SweepTo(corpus, keys, d, rank, k + 1)
    ensures looping <==> MovedBefore(corpus, keys, d, rank, k + 1)
  {
    next, looping := ranks, moved;
    var current := keys[k];
    var oldRank := next[current];
    SweepToUntouched(corpus, keys, d, rank, k, k);
    var sumLinks := SumLinks(corpus, keys, next, current);
    var newRank := (1.0 - d) / (|keys| as real) + d * sumLinks;
    assert newRank == Damping(|keys|, d, sumLinks);
    SweepToStep(corpus, keys, d, rank, k);
    next := next[current := newRank];
    if Abs(newRank - oldRank) > Threshold {
      looping := true;
    }
  }

  /** No rank is negative. */
  predicate NonNegative(rank: Ranks) {
    forall p :: p in rank ==> rank[p] >= 0.0
  }

  /** Non-negative ranks pass on a non-negative inflow. */
  lemma {:induction false} InflowNonNegative(corpus: Corpus, keys: seq<Page>, rank: Ranks, p: Page, j: nat)
    requires Ranked(corpus, keys, rank) && j <= |keys| && NonNegative(rank)
    ensures Inflow(corpus, keys, rank, p, j) >= 0.0
    decreases j
  {
    if j > 0 {
      InflowNonNegative(corpus, keys, rank, p, j - 1);
      var q := keys[j - 1];
      if q != p && p in corpus[q] {
        QuotientNonNegative(rank[q], |corpus[q]| as real);
      }
    }
  }

  /** With 0 <= d <= 1 and a non-negative inflow, line 132 gives at least
      the baseline (1 - d) / N, which is itself non-negative. */
  lemma DampingFloor(n: nat, d: real, inflow: real)
    requires n > 0 && 0.0 <= d <= 1.0 && inflow >= 0.0
    ensures Damping(n, d, inflow) >= (1.0 - d) / (n as real) >= 0.0
  {
    QuotientNonNegative(1.0 - d, n as real);
    assert d * inflow >= 0.0;
  }

  /** Each update of a sweep from non-negative ranks gives at least the
      baseline, so the ranks stay non-negative all through the sweep. */
  lemma {:induction false} SweepToFloor(corpus: Corpus, keys: seq<Page>, d: real, rank: Ranks, k: nat)
    requires Ranked(corpus, keys, rank) && 0 < |keys| && k <= |keys|
    requires NonNegative(rank) && 0.0 <= d <= 1.0
    ensures NonNegative(SweepTo(corpus, keys, d, rank, k))
    decreases k
  {
    if k > 0 {
      var prev := SweepTo(corpus, keys, d, rank, k - 1);
      SweepToFloor(corpus, keys, d, rank, k - 1);
      InflowNonNegative(corpus, keys, prev, keys[k - 1], |keys|);
      DampingFloor(|keys|, d, Inflow(corpus, keys, prev, keys[k - 1], |keys|));
    }
  }

  /** After a sweep from non-negative ranks with 0 <= d <= 1, every page
      has at least the baseline (1 - d) / N. */
  lemma {:induction false} SweepFloor(corpus: Corpus, keys: seq<Page>, d: real, rank: Ranks)
    requires RanksOver(corpus, keys, rank) && NonNegative(rank) && 0.0 <= d <= 1.0
    ensures forall p :: p in rank ==> SweepOf(corpus, keys, d, rank)[p] >= (1.0 - d) / (|keys| as real)
  {
    forall p | p in rank
      ensures SweepOf(corpus, keys, d, rank)[p] >= (1.0 - d) / (|keys| as real)
    {
      assert p in keys;
      var i :| 0 <= i < |keys| && keys[i] == p;
      var before := SweepTo(corpus, keys, d, rank, i);
      SweepIsInPlace(corpus, keys, d, rank, i);
      SweepToFloor(corpus, keys, d, rank, i);
      InflowNonNegative(corpus, keys, before, p, |keys|);
      DampingFloor(|keys|, d, Inflow(corpus, keys, before, p, |keys|));
    }
  }

  /** Pages without links pass nothing on. */
  lemma {:induction false} NoLinksNoInflow(corpus: Corpus, keys: seq<Page>, rank: Ranks, p: Page, j: nat)
    requires Ranked(corpus, keys, rank) && j <= |keys|
    requires forall q :: q in corpus ==> corpus[q] == {}
    ensures Inflow(corpus, keys, rank, p, j) == 0.0
    decreases j
  {
    if j > 0 {
      NoLinksNoInflow(corpus, keys, rank, p, j - 1);
    }
  }

  /** Two pages without links: line 129 never adds anything, so a sweep
      leaves every page at the baseline (1 - d) / 2 and the ranks sum to
      1 - d rather than 1. With d = 0.85 the first sweep moves both pages
      and the second moves none, so iterate_pagerank returns ranks summing
      to 0.15. */
  lemma DanglingPagesLoseMass(d: real)
    ensures var corpus := map["a" := {}, "b" := {}];
            var keys := ["a", "b"];
            var first := SweepOf(corpus, keys, d, InitialRanks(corpus, keys));
            && LinksClosed(corpus) && KeyOrder(corpus, keys)
            && first == map["a" := (1.0 - d) / 2.0, "b" := (1.0 - d) / 2.0]
            && Sum(first, keys) == 1.0 - d
            && (d == 0.85 ==> Run(corpus, keys, d, InitialRanks(corpus, keys), 2) == (first, true))
  {
    var corpus: Corpus := map["a" := {}, "b" := {}];
    var keys := ["a", "b"];
    assert KeyOrder(corpus, keys);
    var start := InitialRanks(corpus, keys);
    var first := SweepOf(corpus, keys, d, start);
    var base := (1.0 - d) / 2.0;
    NoLinksNoInflow(corpus, keys, start, "a", 2);
    assert SweepTo(corpus, keys, d, start, 1) == start["a" := base];
    NoLinksNoInflow(corpus, keys, start["a" := base], "b", 2);
    assert first == map["a" := base, "b" := base];
    assert keys[..1] == ["a"] && ["a"][..0] == [];
    assert Sum(first, ["a"]) == base;
    assert Sum(first, keys) == Sum(first, ["a"]) + base;
    if d == 0.85 {
      assert Abs(first["a"] - start["a"]) > Threshold;
      assert Moved(start, first);
      NoLinksNoInflow(corpus, keys, first, "a", 2);
      assert SweepTo(corpus, keys, d, first, 1) == first;
      NoLinksNoInflow(corpus, keys, first, "b", 2);
      assert SweepOf(corpus, keys, d, first) == first;
      assert !Moved(first, first);
    }
  }

  /** Two pages linking to each other: from the starting ranks 1/2 each,
      the first sweep leaves both at 1/2 whatever d is, so iterate_pagerank
      stops after one sweep with ranks 1/2 and 1/2. */
  lemma TwoPagesSettle(d: real)
    ensures var corpus := map["a" := {"b"}, "b" := {"a"}];
            var keys := ["a", "b"];
            && LinksClosed(corpus) && KeyOrder(corpus, keys)
            && Run(corpus, keys, d, InitialRanks(corpus, keys), 1) == (map["a" := 0.5, "b" := 0.5], true)
  {
    var corpus: Corpus := map["a" := {"b"}, "b" := {"a"}];
    var keys := ["a", "b"];
    assert KeyOrder(corpus, keys);
    var start := InitialRanks(corpus, keys);
    assert start == map["a" := 0.5, "b" := 0.5];
    assert |corpus["a"]| == 1 && |corpus["b"]| == 1;
    assert Inflow(corpus, keys, start, "a", 1) == 0.0;
    assert Inflow(corpus, keys, start, "a", 2) == 0.5;
    assert SweepTo(corpus, keys, d, start, 1) == start;
    assert Inflow(corpus, keys, start, "b", 1) == 0.5;
    assert Inflow(corpus, keys, start, "b", 2) == 0.5;
    assert SweepOf(corpus, keys, d, start) == start;
    assert !Moved(start, start);
  }

  /** The ranks iterate_pagerank starts from: 1 / N for every page. */
  function InitialRanks(corpus: Corpus, keys: seq<Page>): (rank: Ranks)
    requires KeyOrder(corpus, keys)
    ensures rank.Keys == corpus.Keys
  {
    map p | p in corpus :: 1.0 / (|keys| as real)
  }

  /** The starting ranks 1 / N are non-negative. */
  lemma InitialNonNegative(corpus: Corpus, keys: seq<Page>)
    requires KeyOrder(corpus, keys)
    ensures NonNegative(InitialRanks(corpus, keys))
  {
    if |keys| > 0 {
      QuotientNonNegative(1.0, |keys| as real);
    }
  }

  /** Sweeps from the given ranks until one moves no rank by more than the
      threshold, for at most fuel sweeps; the flag says whether that happened. */
  function Run(corpus: Corpus, keys: seq<Page>, d: real, rank: Ranks, fuel: nat): (r: (Ranks, bool))
    requires RanksOver(corpus, keys, rank)
    ensures r.0.Keys == rank.Keys
    ensures r.1 ==> fuel > 0
    ensures fuel == 0 ==> r == (rank, false)
    decreases fuel
  {
    if fuel == 0 then (rank, false)
    else
      var next := SweepOf(corpus, keys, d, rank);
      if Moved(rank, next) then Run(corpus, keys, d, next, fuel - 1) else (next, true)
  }

  lemma RunStep(corpus: Corpus, keys: seq<Page>, d: real, rank: Ranks, fuel: nat)
    requires RanksOver(corpus, keys, rank) && fuel > 0
    ensures Moved(rank, SweepOf(corpus, keys, d, rank)) ==>
              Run(corpus, keys, d, rank, fuel) == Run(corpus, keys, d, SweepOf(corpus, keys, d, rank), fuel - 1)
    ensures !Moved(rank, SweepOf(corpus, keys, d, rank)) ==>
              Run(corpus, keys, d, rank, fuel) == (SweepOf(corpus, keys, d, rank), true)
  {}

  /** What Run returns after at least one sweep from non-negative ranks
      with 0 <= d <= 1 gives every page at least the baseline (1 - d) / N. */
  lemma {:induction false} RunFloor(corpus: Corpus, keys: seq<Page>, d: real, rank: Ranks, fuel: nat)
    requires RanksOver(corpus, keys, rank) && NonNegative(rank) && 0.0 <= d <= 1.0 && fuel > 0
    ensures forall p :: p in Run(corpus, keys, d, rank, fuel).0 ==>
              Run(corpus, keys, d, rank, fuel).0[p] >= (1.0 - d) / (|keys| as real)
    decreases fuel
  {
    var next := SweepOf(corpus, keys, d, rank);
    SweepFloor(corpus, keys, d, rank);
    RunStep(corpus, keys, d, rank, fuel);
    if Moved(rank, next) && fuel > 1 {
      assert 0.0 <= (1.0 - d) / (|keys| as real) by {
        assert keys[0] in corpus;
        QuotientNonNegative(1.0 - d, |keys| as real);
      }
      RunFloor(corpus, keys, d, next, fuel - 1);
    }
  }

  /** When Run reports convergence, its ranks are the outcome of a sweep,
      from the ranks prev, that moved no page by more than the threshold:
      the exit condition of the `while looping` loop. */
  lemma {:induction false} RunConverged(corpus: Corpus, keys: seq<Page>, d: real, rank: Ranks, fuel: nat)
    returns (prev: Ranks)
    requires RanksOver(corpus, keys, rank)
    ensures Run(corpus, keys, d, rank, fuel).1 ==>
              && RanksOver(corpus, keys, prev)
              && Run(corpus, keys, d, rank, fuel).0 == SweepOf(corpus, keys, d, prev)
              && !Moved(prev, SweepOf(corpus, keys, d, prev))
    decreases fuel
  {
    prev := rank;
    if fuel > 0 {
      var next := SweepOf(corpus, keys, d, rank);
      RunStep(corpus, keys, d, rank, fuel);
      if Moved(rank, next) {
        prev := RunConverged(corpus, keys, d, next, fuel - 1);
      }
    }
  }

  /** The first loop of iterate_pagerank: every page starts at 1 / N. */
  method InitRanks(corpus: Corpus, keys: seq<Page>) returns (rank: Ranks)
    requires KeyOrder(corpus, keys)
    ensures rank == InitialRanks(corpus, keys)
  {
    rank := map[];
    for k := 0 to |keys|
      invariant forall q :: q in rank <==> q in keys[..k]
      invariant forall q :: q in rank ==> rank[q] == 1.0 / (|keys| as real)
    {
      rank := rank[keys[k] := 1.0 / (|keys| as real)];
    }
    assert keys[..|keys|] == keys;
  }

  /** iterate_pagerank(corpus, damping_factor), allowed at most fuel sweeps. */
  method IteratePagerank(corpus: Corpus, keys: seq<Page>, d: real, fuel: nat) returns (rank: Ranks, converged: bool)
    requires KeyOrder(corpus, keys)
    ensures (rank, converged) == Run(corpus, keys, d, InitialRanks(corpus, keys), fuel)
    ensures rank.Keys == corpus.Keys
    ensures 0.0 <= d <= 1.0 && fuel > 0 ==>
              forall p :: p in rank ==> rank[p] >= (1.0 - d) / (|keys| as real)
    ensures converged ==>
              exists prev :: RanksOver(corpus, keys, prev) && rank == SweepOf(corpus, keys, d, prev)
                          && !Moved(prev, SweepOf(corpus, keys, d, prev))
  {
    rank := InitRanks(corpus, keys);
    ghost var outcome := Run(corpus, keys, d, rank, fuel);
    var looping := true;
    var left := fuel;
    while looping && left > 0
      invariant RanksOver(corpus, keys, rank)
      invariant looping ==> Run(corpus, keys, d, rank, left) == outcome
      invariant !looping ==> (rank, true) == outcome
      decreases left
    {
      RunStep(corpus, keys, d, rank, left);
      rank, looping := Sweep(corpus, keys, d, rank);
      left := left - 1;
    }
    converged := !looping;
    ghost var start := InitialRanks(corpus, keys);
    ghost var prev := RunConverged(corpus, keys, d, start, fuel);
    if 0.0 <= d <= 1.0 && fuel > 0 {
      InitialNonNegative(corpus, keys);
      RunFloor(corpus, keys, d, start, fuel);
    }
  }
}
