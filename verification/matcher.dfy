/**
 * Enumeration of every place a set of rules applies in an expression, and the
 * application of one such match to the whole tree.
 */
module Matcher {
  import opened Syntax
  import opened Rules

  /** A rule, the tree it was found in, the path to the parent node it acts on, and its site there. */
  datatype Match = Match(rule: Rule, root: Expr, path: Path, site: Site)

  predicate ValidMatch(m: Match)
  {
    ValidPath(m.root, m.path) && Applies(m.rule, SubtreeAt(m.root, m.path), m.site)
  }

  /** The whole tree after the rewrite: the parent node replaced by its rewritten form. */
  function ApplyRewrite(m: Match): Expr
    requires ValidMatch(m)
  {
    ReplaceAt(m.root, m.path, Apply(m.rule, SubtreeAt(m.root, m.path), m.site))
  }

  /** The matches at the node `e` found at `path`, rule by rule in the order of `rules`. */
  function MatchesHere(rules: seq<Rule>, root: Expr, path: Path, e: Expr): seq<Match>
  {
    if rules == [] then []
    else AtSites(rules[0], root, path, Sites(rules[0], e)) + MatchesHere(rules[1..], root, path, e)
  }

  function AtSites(r: Rule, root: Expr, path: Path, ss: seq<Site>): seq<Match>
  {
    if ss == [] then [] else [Match(r, root, path, ss[0])] + AtSites(r, root, path, ss[1..])
  }

  lemma {:induction false} AtSitesMember(r: Rule, root: Expr, path: Path, ss: seq<Site>, m: Match)
    ensures m in AtSites(r, root, path, ss) <==>
      m.rule == r && m.root == root && m.path == path && m.site in ss
  {
    if ss != [] {
      AtSitesMember(r, root, path, ss[1..], m);
      assert m.site in ss <==> m.site == ss[0] || m.site in ss[1..];
    }
  }

  lemma {:induction false} MatchesHereSpec(rules: seq<Rule>, root: Expr, path: Path, e: Expr, m: Match)
    ensures m in MatchesHere(rules, root, path, e) <==>
      m.rule in rules && m.root == root && m.path == path && Applies(m.rule, e, m.site)
  {
    if rules != [] {
      AtSitesMember(rules[0], root, path, Sites(rules[0], e), m);
      MatchesHereSpec(rules[1..], root, path, e, m);
      SitesSpec(m.rule, e, m.site);
      assert m.rule in rules <==> m.rule == rules[0] || m.rule in rules[1..];
    }
  }

  /** Pre-order walk: the matches at `e` (found at `path` in `root`), then those below it. */
  function Walk(rules: seq<Rule>, root: Expr, path: Path, e: Expr): seq<Match>
    decreases Size(e), 1
  {
    MatchesHere(rules, root, path, e) + WalkFrom(rules, root, path, e, 0)
  }

  function WalkFrom(rules: seq<Rule>, root: Expr, path: Path, e: Expr, k: nat): seq<Match>
    decreases Size(e), 0, |Children(e)| - k
  {
    if k >= |Children(e)| then []
    else Walk(rules, root, path + [k], Children(e)[k]) + WalkFrom(rules, root, path, e, k + 1)
  }

  lemma ExtendPath(root: Expr, path: Path, e: Expr, k: nat)
    requires ValidPath(root, path) && SubtreeAt(root, path) == e && k < |Children(e)|
    ensures ValidPath(root, path + [k]) && SubtreeAt(root, path + [k]) == Children(e)[k]
  {
    PathAppend(root, path, [k]);
  }

  /** A valid path that goes below `e` continues with the index of one of its children. */
  lemma BelowIsChild(root: Expr, path: Path, e: Expr, p: Path)
    requires ValidPath(root, path) && SubtreeAt(root, path) == e
    requires ValidPath(root, p) && path < p
    ensures p[|path|] < |Children(e)|
  {
    assert p == path + p[|path|..];
    PathAppend(root, path, p[|path|..]);
  }

  lemma {:induction false} WalkSpec(rules: seq<Rule>, root: Expr, path: Path, e: Expr, m: Match)
    requires ValidPath(root, path) && SubtreeAt(root, path) == e
    ensures m in Walk(rules, root, path, e) <==>
      m.root == root && m.rule in rules && path <= m.path && ValidMatch(m)
    decreases Size(e), 1
  {
    MatchesHereSpec(rules, root, path, e, m);
    WalkFromSpec(rules, root, path, e, 0, m);
    assert Walk(rules, root, path, e) == MatchesHere(rules, root, path, e) + WalkFrom(rules, root, path, e, 0);
    assert path <= m.path <==> m.path == path || path < m.path;
    if m.path == path && m.root == root {
      assert ValidMatch(m) <==> Applies(m.rule, e, m.site);
    }
  }

  lemma PrefixStep(path: Path, k: nat, p: Path)
    ensures path + [k] <= p <==> path < p && p[|path|] == k
  {
    if path < p && p[|path|] == k {
      assert p[..|path| + 1] == path + [k];
    }
  }

  lemma {:induction false} WalkFromSpec(rules: seq<Rule>, root: Expr, path: Path, e: Expr, k: nat, m: Match)
    requires ValidPath(root, path) && SubtreeAt(root, path) == e
    ensures m in WalkFrom(rules, root, path, e, k) <==>
      m.root == root && m.rule in rules && path < m.path && k <= m.path[|path|] && ValidMatch(m)
    decreases Size(e), 0, |Children(e)| - k
  {
    if k >= |Children(e)| {
      if ValidPath(root, m.path) && path < m.path {
        BelowIsChild(root, path, e, m.path);
      }
    } else {
      ExtendPath(root, path, e, k);
      WalkSpec(rules, root, path + [k], Children(e)[k], m);
      WalkFromSpec(rules, root, path, e, k + 1, m);
      PrefixStep(path, k, m.path);
    }
  }

  /** Every match of `rules` anywhere in `root`, parents before their descendants. */
  function FindAllMatches(rules: seq<Rule>, root: Expr): seq<Match>
  {
    Walk(rules, root, [], root)
  }

  /** A match is listed exactly when its rule is one of `rules` and applies at its position. */
  lemma FindAllMatchesSpec(rules: seq<Rule>, root: Expr, m: Match)
    ensures m in FindAllMatches(rules, root) <==> m.root == root && m.rule in rules && ValidMatch(m)
  {
    WalkSpec(rules, root, [], root, m);
  }

  /** The result of every rewrite of `rules` in `e`, one per match. */
  function RewriteAll(rules: seq<Rule>, e: Expr): seq<Expr>
  {
    FindAllMatchesValid(rules, e);
    RewriteEach(FindAllMatches(rules, e))
  }

  lemma FindAllMatchesValid(rules: seq<Rule>, root: Expr)
    ensures forall m :: m in FindAllMatches(rules, root) ==> ValidMatch(m)
  {
    forall m | m in FindAllMatches(rules, root) ensures ValidMatch(m) {
      FindAllMatchesSpec(rules, root, m);
    }
  }

  function RewriteEach(ms: seq<Match>): (rs: seq<Expr>)
    requires forall m :: m in ms ==> ValidMatch(m)
    ensures |rs| == |ms| && forall j :: 0 <= j < |ms| ==> rs[j] == ApplyRewrite(ms[j])
  {
    if ms == [] then [] else [ApplyRewrite(ms[0])] + RewriteEach(ms[1..])
  }

  // ---------------------------------------------------------------------------
  // Each match is reported once

  lemma {:induction false} AtSitesDistinct(r: Rule, root: Expr, path: Path, ss: seq<Site>)
    requires Distinct(ss)
    ensures Distinct(AtSites(r, root, path, ss))
  {
    if ss != [] {
      assert Distinct(ss[1..]);
      AtSitesDistinct(r, root, path, ss[1..]);
      forall m | m in AtSites(r, root, path, ss[1..]) ensures m != Match(r, root, path, ss[0]) {
        AtSitesMember(r, root, path, ss[1..], m);
      }
      DistinctAppend([Match(r, root, path, ss[0])], AtSites(r, root, path, ss[1..]));
    }
  }

  lemma {:induction false} MatchesHereDistinct(rules: seq<Rule>, root: Expr, path: Path, e: Expr)
    requires Distinct(rules)
    ensures Distinct(MatchesHere(rules, root, path, e))
  {
    if rules != [] {
      assert Distinct(rules[1..]);
      var first := AtSites(rules[0], root, path, Sites(rules[0], e));
      var rest := MatchesHere(rules[1..], root, path, e);
      SitesDistinct(rules[0], e);
      AtSitesDistinct(rules[0], root, path, Sites(rules[0], e));
      MatchesHereDistinct(rules[1..], root, path, e);
      forall m | m in first ensures m !in rest {
        AtSitesMember(rules[0], root, path, Sites(rules[0], e), m);
        MatchesHereSpec(rules[1..], root, path, e, m);
      }
      DistinctAppend(first, rest);
    }
  }

  lemma {:induction false} WalkDistinct(rules: seq<Rule>, root: Expr, path: Path, e: Expr)
    requires Distinct(rules)
    requires ValidPath(root, path) && SubtreeAt(root, path) == e
    ensures Distinct(Walk(rules, root, path, e))
    decreases Size(e), 1
  {
    MatchesHereDistinct(rules, root, path, e);
    WalkFromDistinct(rules, root, path, e, 0);
    forall m | m in MatchesHere(rules, root, path, e) ensures m !in WalkFrom(rules, root, path, e, 0) {
      MatchesHereSpec(rules, root, path, e, m);
      WalkFromSpec(rules, root, path, e, 0, m);
    }
    DistinctAppend(MatchesHere(rules, root, path, e), WalkFrom(rules, root, path, e, 0));
  }

  lemma {:induction false} WalkFromDistinct(rules: seq<Rule>, root: Expr, path: Path, e: Expr, k: nat)
    requires Distinct(rules)
    requires ValidPath(root, path) && SubtreeAt(root, path) == e
    ensures Distinct(WalkFrom(rules, root, path, e, k))
    decreases Size(e), 0, |Children(e)| - k
  {
    if k < |Children(e)| {
      ExtendPath(root, path, e, k);
      var below := Walk(rules, root, path + [k], Children(e)[k]);
      var rest := WalkFrom(rules, root, path, e, k + 1);
      WalkDistinct(rules, root, path + [k], Children(e)[k]);
      WalkFromDistinct(rules, root, path, e, k + 1);
      forall m | m in below ensures m !in rest {
        WalkSpec(rules, root, path + [k], Children(e)[k], m);
        WalkFromSpec(rules, root, path, e, k + 1, m);
        PrefixStep(path, k, m.path);
      }
      DistinctAppend(below, rest);
    }
  }

  /** With no rule listed twice, no match is listed twice. */
  lemma FindAllMatchesDistinct(rules: seq<Rule>, root: Expr)
    requires Distinct(rules)
    ensures Distinct(FindAllMatches(rules, root))
  {
    WalkDistinct(rules, root, [], root);
  }

  // ---------------------------------------------------------------------------
  // Determining all the matches from the matches at each node

  /** Every match of `rules` at or below `path` in `root` is one of `ms`. */
  ghost predicate CoversBelow(rules: seq<Rule>, root: Expr, path: Path, ms: seq<Match>)
  {
    forall m: Match :: m.root == root && m.rule in rules && path <= m.path && ValidMatch(m) ==> m in ms
  }

  /** No rule of `rules` applies anywhere in `e`. */
  ghost predicate Clean(rules: seq<Rule>, e: Expr)
  {
    forall p, r, s :: ValidPath(e, p) && r in rules ==> !Applies(r, SubtreeAt(e, p), s)
  }

  ghost predicate ChildrenClean(rules: seq<Rule>, e: Expr)
  {
    forall k :: 0 <= k < |Children(e)| ==> Clean(rules, Children(e)[k])
  }

  lemma IfChildrenClean(rules: seq<Rule>, c: Expr, t: Expr, f: Expr)
    requires Clean(rules, c) && Clean(rules, t) && Clean(rules, f)
    ensures ChildrenClean(rules, If(c, t, f))
  {
    assert Children(If(c, t, f)) == [c, t, f];
  }

  lemma LetChildrenClean(rules: seq<Rule>, x: Name, r: Expr, b: Expr)
    requires Clean(rules, r) && Clean(rules, b)
    ensures ChildrenClean(rules, Let(x, r, b))
  {
    assert Children(Let(x, r, b)) == [r, b];
  }

  /** A tree is clean when no rule applies at its root and its children are clean. */
  lemma CleanNode(rules: seq<Rule>, e: Expr)
    requires forall r, s :: r in rules ==> !Applies(r, e, s)
    requires forall k :: 0 <= k < |Children(e)| ==> Clean(rules, Children(e)[k])
    ensures Clean(rules, e)
  {
    forall p, r, s | ValidPath(e, p) && r in rules
      ensures !Applies(r, SubtreeAt(e, p), s)
    {
      if p != [] {
        assert Clean(rules, Children(e)[p[0]]);
      }
    }
  }

  /** A node whose children are all atoms is clean when no rule applies at the node. */
  lemma CleanOverAtoms(rules: seq<Rule>, e: Expr)
    requires forall r, s :: r in rules ==> !Applies(r, e, s)
    requires forall k :: 0 <= k < |Children(e)| ==> IsAtom(Children(e)[k])
    ensures Clean(rules, e)
  {
    forall k | 0 <= k < |Children(e)| ensures Clean(rules, Children(e)[k]) {
      CleanAtom(rules, Children(e)[k]);
    }
    CleanNode(rules, e);
  }

  /** No rule applies anywhere in a variable or a constant. */
  lemma CleanAtom(rules: seq<Rule>, e: Expr)
    requires IsAtom(e)
    ensures Clean(rules, e)
  {
    forall p, r, s | ValidPath(e, p) && r in rules
      ensures !Applies(r, SubtreeAt(e, p), s)
    {
    }
  }

  /** A match below the child `k` of `e` cannot exist when that child is clean. */
  lemma CleanChildNoMatch(rules: seq<Rule>, root: Expr, path: Path, e: Expr, k: nat, m: Match)
    requires ValidPath(root, path) && SubtreeAt(root, path) == e
    requires k < |Children(e)| && Clean(rules, Children(e)[k])
    requires path + [k] <= m.path && ValidPath(root, m.path) && m.rule in rules
    ensures !Applies(m.rule, SubtreeAt(root, m.path), m.site)
  {
    var rest := m.path[|path| + 1..];
    assert m.path == (path + [k]) + rest;
    ExtendPath(root, path, e, k);
    PathAppend(root, path + [k], rest);
  }

  /** The matches at and below the node at `path` are among `ms` when those at the node are
      and each child is clean or has its matches among `ms`. */
  lemma CoverNode(rules: seq<Rule>, root: Expr, path: Path, e: Expr, ms: seq<Match>)
    requires ValidPath(root, path) && SubtreeAt(root, path) == e
    requires forall r, s :: r in rules && Applies(r, e, s) ==> Match(r, root, path, s) in ms
    requires forall k :: 0 <= k < |Children(e)| ==>
      Clean(rules, Children(e)[k]) || CoversBelow(rules, root, path + [k], ms)
    ensures CoversBelow(rules, root, path, ms)
  {
    forall m: Match | m.root == root && m.rule in rules && path <= m.path && ValidMatch(m)
      ensures m in ms
    {
      if m.path == path {
        assert Match(m.rule, root, path, m.site) == m;
      } else {
        BelowIsChild(root, path, e, m.path);
        var k := m.path[|path|];
        PrefixStep(path, k, m.path);
        if !CoversBelow(rules, root, path + [k], ms) {
          CleanChildNoMatch(rules, root, path, e, k, m);
          assert false;
        }
      }
    }
  }

  lemma {:induction false} DistinctCount<T>(a: seq<T>, x: T)
    requires Distinct(a)
    ensures multiset(a)[x] == if x in a then 1 else 0
  {
    if a != [] {
      assert Distinct(a[1..]);
      DistinctCount(a[1..], x);
      assert a == [a[0]] + a[1..];
      assert x in a <==> x == a[0] || x in a[1..];
    }
  }

  /** When `ms` lists without repetition exactly the matches at every node, `FindAllMatches`
      lists the same matches, possibly in another order. */
  lemma FindAllMatchesExactly(rules: seq<Rule>, root: Expr, ms: seq<Match>)
    requires Distinct(rules) && Distinct(ms)
    requires forall m :: m in ms ==> m.root == root && m.rule in rules && ValidMatch(m)
    requires CoversBelow(rules, root, [], ms)
    ensures multiset(FindAllMatches(rules, root)) == multiset(ms)
  {
    var found := FindAllMatches(rules, root);
    FindAllMatchesDistinct(rules, root);
    forall m ensures multiset(found)[m] == multiset(ms)[m] {
      FindAllMatchesSpec(rules, root, m);
      DistinctCount(found, m);
      DistinctCount(ms, m);
    }
  }

  lemma FindAllMatchesSingle(rules: seq<Rule>, root: Expr, m0: Match)
    requires Distinct(rules) && m0.root == root && m0.rule in rules && ValidMatch(m0)
    requires CoversBelow(rules, root, [], [m0])
    ensures FindAllMatches(rules, root) == [m0]
  {
    var found := FindAllMatches(rules, root);
    FindAllMatchesExactly(rules, root, [m0]);
    assert |found| == |multiset(found)| == 1;
    assert found[0] in multiset([m0]);
  }

  /** The only match is `m0` at the root when nothing else applies there and the root's
      children are clean. */
  lemma FindAllMatchesAtRoot(rules: seq<Rule>, root: Expr, m0: Match)
    requires Distinct(rules) && m0.rule in rules && m0.root == root && m0.path == [] && ValidMatch(m0)
    requires forall r, s :: r in rules && Applies(r, root, s) ==> r == m0.rule && s == m0.site
    requires ChildrenClean(rules, root)
    ensures FindAllMatches(rules, root) == [m0]
  {
    CoverNode(rules, root, [], root, [m0]);
    FindAllMatchesSingle(rules, root, m0);
  }

  /** No match is found in a clean tree. */
  lemma FindAllMatchesNone(rules: seq<Rule>, root: Expr)
    requires Clean(rules, root)
    ensures FindAllMatches(rules, root) == []
  {
    var found := FindAllMatches(rules, root);
    if found != [] {
      FindAllMatchesSpec(rules, root, found[0]);
    }
  }

}
