/** The domain matcher: which rule wins for a name, and the order of all rules that match. */
module Matcher {
  import opened Base
  import opened Names

  datatype Pattern = Exact(name: Name) | Suffix(name: Name) | Wildcard(name: Name)

  datatype Rule<+T> = Rule(pattern: Pattern, value: T)

  datatype Score = Score(kind: nat, labels: nat)

  predicate Matches(p: Pattern, candidate: Name) {
    match p
    case Exact(name) => SameName(candidate, name)
    case Suffix(name) => EndsWith(candidate, name)
    case Wildcard(name) => |candidate| > |name| && EndsWith(candidate, name)
  }

  function Specificity(p: Pattern): Score {
    match p
    case Exact(name) => Score(2, |name|)
    case Suffix(name) => Score(1, |name|)
    case Wildcard(name) => Score(0, |name|)
  }

  function Of<T>(r: Rule<T>): Score {
    Specificity(r.pattern)
  }

  /** Strictly more specific: by kind, then by number of labels. */
  predicate Above(a: Score, b: Score) {
    a.kind > b.kind || (a.kind == b.kind && a.labels > b.labels)
  }

  /** The rules that match, in insertion order. */
  function Matching<T>(rules: seq<Rule<T>>, name: Name): seq<Rule<T>> {
    if rules == [] then []
    else
      var before := Matching(rules[..|rules| - 1], name);
      if Matches(rules[|rules| - 1].pattern, name) then before + [rules[|rules| - 1]] else before
  }

  /** The subsequence of rules of one score. */
  function WithScore<T>(rs: seq<Rule<T>>, s: Score): seq<Rule<T>> {
    if rs == [] then [] else (if Of(rs[0]) == s then [rs[0]] else []) + WithScore(rs[1..], s)
  }

  ghost predicate Descending<T>(rs: seq<Rule<T>>) {
    forall i, j :: 0 <= i < j < |rs| ==> !Above(Of(rs[j]), Of(rs[i]))
  }

  /** A stable sort by descending specificity: rules of one score keep their order. */
  ghost predicate StableSort<T(!new)>(sorted: seq<Rule<T>>, rs: seq<Rule<T>>) {
    Descending(sorted) && forall s :: WithScore(sorted, s) == WithScore(rs, s)
  }

  /** The rule at `i` matches, no matching rule is more specific, and no earlier one is as specific. */
  ghost predicate Wins<T>(rules: seq<Rule<T>>, name: Name, i: nat) {
    && i < |rules| && Matches(rules[i].pattern, name)
    && (forall j :: 0 <= j < |rules| && Matches(rules[j].pattern, name) ==> !Above(Of(rules[j]), Of(rules[i])))
    && (forall j :: 0 <= j < i && Matches(rules[j].pattern, name) ==> Above(Of(rules[i]), Of(rules[j])))
  }

  // ---------------------------------------------------------------------------------------
  // Sorting

  lemma {:induction false} WithScorePlus<T>(a: seq<Rule<T>>, b: seq<Rule<T>>, s: Score)
    ensures WithScore(a + b, s) == WithScore(a, s) + WithScore(b, s)
  {
    if a == [] {
      assert a + b == b;
    } else {
      assert (a + b)[1..] == a[1..] + b;
      WithScorePlus(a[1..], b, s);
    }
  }

  lemma {:induction false} WithScoreNone<T>(rs: seq<Rule<T>>, s: Score)
    requires forall i :: 0 <= i < |rs| ==> Of(rs[i]) != s
    ensures WithScore(rs, s) == []
  {
    if rs != [] {
      WithScoreNone(rs[1..], s);
    }
  }

  lemma {:induction false} WithScoreSome<T>(rs: seq<Rule<T>>, i: nat)
    requires i < |rs|
    ensures WithScore(rs, Of(rs[i])) != []
  {
    if i > 0 {
      WithScoreSome(rs[1..], i - 1);
    }
  }

  lemma {:induction false} WithScoreMember<T>(rs: seq<Rule<T>>, s: Score)
    requires WithScore(rs, s) != []
    ensures exists i :: 0 <= i < |rs| && Of(rs[i]) == s
  {
    if Of(rs[0]) != s {
      WithScoreMember(rs[1..], s);
      var i :| 0 <= i < |rs[1..]| && Of(rs[1..][i]) == s;
      assert Of(rs[i + 1]) == s;
    }
  }

  /** The head of a descending sequence is determined by its subsequences: it is the first rule of the top score. */
  lemma SameHead<T(!new)>(a: seq<Rule<T>>, b: seq<Rule<T>>)
    requires Descending(a) && Descending(b) && a != [] && b != []
    requires forall s :: WithScore(a, s) == WithScore(b, s)
    ensures a[0] == b[0]
  {
    WithScoreSome(a, 0);
    WithScoreSome(b, 0);
    WithScoreMember(a, Of(b[0]));
    WithScoreMember(b, Of(a[0]));
    assert Of(a[0]) == Of(b[0]);
    assert WithScore(a, Of(a[0]))[0] == a[0] && WithScore(b, Of(b[0]))[0] == b[0];
  }

  /** Two descending sequences with the same subsequence for every score are equal. */
  lemma {:induction false} StableSortUnique<T(!new)>(a: seq<Rule<T>>, b: seq<Rule<T>>)
    requires Descending(a) && Descending(b)
    requires forall s :: WithScore(a, s) == WithScore(b, s)
    ensures a == b
    decreases |a|
  {
    if a == [] {
      if b != [] {
        WithScoreSome(b, 0);
      }
    } else if b == [] {
      WithScoreSome(a, 0);
    } else {
      SameHead(a, b);
      forall s ensures WithScore(a[1..], s) == WithScore(b[1..], s) {
        var head := if Of(a[0]) == s then [a[0]] else [];
        assert WithScore(a, s) == head + WithScore(a[1..], s) && WithScore(b, s) == head + WithScore(b[1..], s);
        assert WithScore(a, s)[|head|..] == WithScore(a[1..], s) && WithScore(b, s)[|head|..] == WithScore(b[1..], s);
      }
      StableSortUnique(a[1..], b[1..]);
      assert a == [a[0]] + a[1..] && b == [b[0]] + b[1..];
    }
  }

  lemma InsertedDescending<T>(a: seq<Rule<T>>, x: Rule<T>, b: seq<Rule<T>>)
    requires Descending(a + b)
    requires forall i :: 0 <= i < |a| ==> !Above(Of(x), Of(a[i]))
    requires forall i :: 0 <= i < |b| ==> Above(Of(x), Of(b[i]))
    ensures Descending(a + [x] + b)
  {
    hide Of;
    var old_, new_ := a + b, a + [x] + b;
    forall i, j | 0 <= i < j < |new_| ensures !Above(Of(new_[j]), Of(new_[i])) {
      var i0, j0 := if i < |a| then i else i - 1, if j < |a| then j else j - 1;
      if i != |a| && j != |a| {
        assert new_[i] == old_[i0] && new_[j] == old_[j0];
      } else if i == |a| {
        assert new_[j] == b[j - |a| - 1];
      } else {
        assert new_[i] == a[i];
      }
    }
  }

  lemma InsertedScores<T>(a: seq<Rule<T>>, x: Rule<T>, b: seq<Rule<T>>, rs: seq<Rule<T>>, s: Score)
    requires WithScore(a + b, s) == WithScore(rs, s)
    requires forall i :: 0 <= i < |b| ==> Above(Of(x), Of(b[i]))
    ensures WithScore(a + [x] + b, s) == WithScore(rs + [x], s)
  {
    WithScorePlus(a + [x], b, s);
    WithScorePlus(a, [x], s);
    WithScorePlus(a, b, s);
    WithScorePlus(rs, [x], s);
    NotBelow(x, b, s);
    SwapEnds(WithScore(a, s), WithScore([x], s), WithScore(b, s));
  }

  /** Of the rule and those strictly below it, at most one side has the score. */
  lemma NotBelow<T>(x: Rule<T>, b: seq<Rule<T>>, s: Score)
    requires forall i :: 0 <= i < |b| ==> Above(Of(x), Of(b[i]))
    ensures WithScore([x], s) == [] || WithScore(b, s) == []
  {
    OneScore(x, s);
    if Of(x) == s {
      WithScoreNone(b, s);
    }
  }

  lemma SwapEnds<T>(a: seq<T>, x: seq<T>, b: seq<T>)
    requires x == [] || b == []
    ensures a + x + b == a + b + x
  {
  }

  lemma OneScore<T>(x: Rule<T>, s: Score)
    ensures WithScore([x], s) == if Of(x) == s then [x] else []
  {
  }

  /** Putting a rule after everything at least as specific keeps a stable sort. */
  lemma InsertedStable<T(!new)>(sorted: seq<Rule<T>>, rs: seq<Rule<T>>, x: Rule<T>, at: nat)
    requires StableSort(sorted, rs) && at <= |sorted|
    requires forall i :: 0 <= i < at ==> !Above(Of(x), Of(sorted[i]))
    requires forall i :: at <= i < |sorted| ==> Above(Of(x), Of(sorted[i]))
    ensures StableSort(sorted[..at] + [x] + sorted[at..], rs + [x])
  {
    hide Descending, WithScore, Of, Above;
    var a, b := sorted[..at], sorted[at..];
    assert sorted == a + b;
    InsertedDescending(a, x, b);
    forall s ensures WithScore(a + [x] + b, s) == WithScore(rs + [x], s) {
      InsertedScores(a, x, b, rs, s);
    }
  }

  // ---------------------------------------------------------------------------------------
  // Winners

  lemma WinsOnce<T>(rules: seq<Rule<T>>, name: Name, i: nat, j: nat)
    requires Wins(rules, name, i) && Wins(rules, name, j)
    ensures i == j
  {
  }

  /** Matching rules of one score, among the first `n` rules. */
  lemma {:induction false} FirstOfScore<T(!new)>(rules: seq<Rule<T>>, name: Name, i: nat)
    requires i < |rules| && Matches(rules[i].pattern, name)
    requires forall j :: 0 <= j < i && Matches(rules[j].pattern, name) ==> Of(rules[j]) != Of(rules[i])
    ensures WithScore(Matching(rules, name), Of(rules[i])) != []
    ensures WithScore(Matching(rules, name), Of(rules[i]))[0] == rules[i]
    decreases |rules|
  {
    hide Matches;
    var n := |rules| - 1;
    var before, s := rules[..n], Of(rules[i]);
    if i < n {
      FirstOfScore(before, name, i);
      if Matches(rules[n].pattern, name) {
        WithScorePlus(Matching(before, name), [rules[n]], s);
      }
    } else {
      NoneOfScore(before, name, s);
      WithScorePlus(Matching(before, name), [rules[n]], s);
    }
  }

  lemma {:induction false} NoneOfScore<T(!new)>(rules: seq<Rule<T>>, name: Name, s: Score)
    requires forall j :: 0 <= j < |rules| && Matches(rules[j].pattern, name) ==> Of(rules[j]) != s
    ensures WithScore(Matching(rules, name), s) == []
    decreases |rules|
  {
    hide Matches;
    if rules != [] {
      var n := |rules| - 1;
      NoneOfScore(rules[..n], name, s);
      if Matches(rules[n].pattern, name) {
        WithScorePlus(Matching(rules[..n], name), [rules[n]], s);
      }
    }
  }

  /** Every matching rule is one of the rules. */
  lemma {:induction false} MatchingMember<T>(rules: seq<Rule<T>>, name: Name, k: nat)
    requires k < |Matching(rules, name)|
    ensures exists i :: 0 <= i < |rules| && Matches(rules[i].pattern, name) && rules[i] == Matching(rules, name)[k]
    decreases |rules|
  {
    hide Matches;
    var n := |rules| - 1;
    if k < |Matching(rules[..n], name)| {
      MatchingMember(rules[..n], name, k);
      var i :| 0 <= i < n && Matches(rules[..n][i].pattern, name) && rules[..n][i] == Matching(rules[..n], name)[k];
      assert rules[i] == Matching(rules, name)[k];
    } else {
      assert rules[n] == Matching(rules, name)[k];
    }
  }

  /** The head of the stable sort of the matching rules is the winner. */
  lemma HeadWins<T(!new)>(rules: seq<Rule<T>>, name: Name, i: nat, sorted: seq<Rule<T>>)
    requires Wins(rules, name, i) && StableSort(sorted, Matching(rules, name))
    ensures sorted != [] && sorted[0] == rules[i]
  {
    hide Matches;
    var s := Of(rules[i]);
    FirstOfScore(rules, name, i);
    WithScoreMember(sorted, s);
    WithScoreSome(sorted, 0);
    WithScoreMember(Matching(rules, name), Of(sorted[0]));
    var k :| 0 <= k < |Matching(rules, name)| && Of(Matching(rules, name)[k]) == Of(sorted[0]);
    MatchingMember(rules, name, k);
    assert Of(sorted[0]) == s;
  }

  /** What resolving a name gives: nothing if no rule matches, otherwise the winner's value. */
  ghost predicate Resolved<T(!new)>(rules: seq<Rule<T>>, name: Name, r: Option<T>) {
    if r.None? then forall i :: 0 <= i < |rules| ==> !Matches(rules[i].pattern, name)
    else exists i: nat :: Wins(rules, name, i) && rules[i].value == r.value
  }

  /** Resolving gives the head of the stable sort of all matching rules, and nothing when that is empty. */
  lemma ResolvedIsHead<T(!new)>(rules: seq<Rule<T>>, name: Name, r: Option<T>, sorted: seq<Rule<T>>)
    requires Resolved(rules, name, r) && StableSort(sorted, Matching(rules, name))
    ensures r == if sorted == [] then None else Some(sorted[0].value)
  {
    hide Matches;
    if r.Some? {
      var i: nat :| Wins(rules, name, i) && rules[i].value == r.value;
      HeadWins(rules, name, i, sorted);
    } else if sorted != [] {
      WithScoreSome(sorted, 0);
      NoneOfScore(rules, name, Of(sorted[0]));
    }
  }

  /**
   Reordering the rules without swapping equally specific matching ones: all that reaches a result is, for every
   score, the sequence of matching rules of that score.
   */
  ghost predicate SameByScore<T(!new)>(a: seq<Rule<T>>, b: seq<Rule<T>>, name: Name) {
    forall s :: WithScore(Matching(a, name), s) == WithScore(Matching(b, name), s)
  }

  lemma ReorderingKeepsOrder<T(!new)>(a: seq<Rule<T>>, b: seq<Rule<T>>, name: Name, x: seq<Rule<T>>, y: seq<Rule<T>>)
    requires SameByScore(a, b, name) && StableSort(x, Matching(a, name)) && StableSort(y, Matching(b, name))
    ensures x == y
  {
    StableSortUnique(x, y);
  }

  lemma ReorderingKeepsMatch<T(!new)>(a: seq<Rule<T>>, b: seq<Rule<T>>, name: Name, j: nat)
    requires SameByScore(a, b, name) && Wins(b, name, j)
    ensures exists i :: 0 <= i < |a| && Matches(a[i].pattern, name) && Of(a[i]) == Of(b[j])
  {
    hide Matches;
    FirstOfScore(b, name, j);
    WithScoreMember(Matching(a, name), Of(b[j]));
    var k :| 0 <= k < |Matching(a, name)| && Of(Matching(a, name)[k]) == Of(b[j]);
    MatchingMember(a, name, k);
  }

  lemma ReorderingKeepsWinner<T(!new)>(a: seq<Rule<T>>, b: seq<Rule<T>>, name: Name, i: nat, j: nat)
    requires SameByScore(a, b, name) && Wins(a, name, i) && Wins(b, name, j)
    ensures a[i] == b[j]
  {
    hide Matches;
    FirstOfScore(a, name, i);
    FirstOfScore(b, name, j);
    ReorderingKeepsMatch(a, b, name, j);
    ReorderingKeepsMatch(b, a, name, i);
  }

  /** Such a reordering never changes what resolving gives. */
  lemma ReorderingKeepsResult<T(!new)>(a: seq<Rule<T>>, b: seq<Rule<T>>, name: Name, r: Option<T>, q: Option<T>)
    requires SameByScore(a, b, name) && Resolved(a, name, r) && Resolved(b, name, q)
    ensures r == q
  {
    hide Matches, WithScore, Matching;
    if r.Some? {
      var i: nat :| Wins(a, name, i) && a[i].value == r.value;
      ReorderingKeepsMatch(b, a, name, i);
      if q.Some? {
        var j: nat :| Wins(b, name, j) && b[j].value == q.value;
        ReorderingKeepsWinner(a, b, name, i, j);
      }
    } else if q.Some? {
      var j: nat :| Wins(b, name, j) && b[j].value == q.value;
      ReorderingKeepsMatch(a, b, name, j);
    }
  }

  /** Matching rules of one score are for one and the same name. */
  lemma SameScoreSameName(p: Pattern, q: Pattern, name: Name)
    requires Matches(p, name) && Matches(q, name) && Specificity(p) == Specificity(q)
    ensures SameName(p.name, q.name)
  {
    if !p.Exact? {
      EndsWithFold(name, p.name);
      EndsWithFold(name, q.name);
    }
  }

  // ---------------------------------------------------------------------------------------
  // Precedence, rule kind by rule kind

  predicate ExactMatch(p: Pattern, name: Name) {
    p.Exact? && SameName(name, p.name)
  }

  predicate SuffixMatch(p: Pattern, name: Name) {
    p.Suffix? && EndsWith(name, p.name)
  }

  /** A wildcard needs at least one label more than its own. */
  predicate WildcardMatch(p: Pattern, name: Name) {
    p.Wildcard? && EndsWith(name, p.name) && |name| > |p.name|
  }

  lemma MatchKinds(p: Pattern, name: Name)
    ensures Matches(p, name) <==> ExactMatch(p, name) || SuffixMatch(p, name) || WildcardMatch(p, name)
  {
  }

  /** A wildcard matches what a suffix of its name matches, except that name itself. */
  lemma WildcardNeverItself(base: Name, name: Name)
    ensures Matches(Wildcard(base), name) <==> Matches(Suffix(base), name) && !SameName(name, base)
  {
    EndsWithFold(name, base);
    if EndsWith(name, base) && |name| == |base| {
      assert Fold(name)[0..] == Fold(name);
    }
  }

  /** The first matching exact rule. */
  ghost predicate FirstExact<T>(rules: seq<Rule<T>>, name: Name, i: nat) {
    && i < |rules| && ExactMatch(rules[i].pattern, name)
    && forall j :: 0 <= j < i ==> !ExactMatch(rules[j].pattern, name)
  }

  /** Without an exact match: the first matching suffix rule of most labels. */
  ghost predicate LongestSuffix<T>(rules: seq<Rule<T>>, name: Name, i: nat) {
    && i < |rules| && SuffixMatch(rules[i].pattern, name)
    && (forall j :: 0 <= j < |rules| ==> !ExactMatch(rules[j].pattern, name))
    && (forall j :: 0 <= j < |rules| && SuffixMatch(rules[j].pattern, name) ==>
          |rules[j].pattern.name| <= |rules[i].pattern.name|)
    && (forall j :: 0 <= j < i && SuffixMatch(rules[j].pattern, name) ==>
          |rules[j].pattern.name| < |rules[i].pattern.name|)
  }

  /** Without either: the first matching wildcard rule of most labels. */
  ghost predicate LongestWildcard<T>(rules: seq<Rule<T>>, name: Name, i: nat) {
    && i < |rules| && WildcardMatch(rules[i].pattern, name)
    && (forall j :: 0 <= j < |rules| ==>
          !ExactMatch(rules[j].pattern, name) && !SuffixMatch(rules[j].pattern, name))
    && (forall j :: 0 <= j < |rules| && WildcardMatch(rules[j].pattern, name) ==>
          |rules[j].pattern.name| <= |rules[i].pattern.name|)
    && (forall j :: 0 <= j < i && WildcardMatch(rules[j].pattern, name) ==>
          |rules[j].pattern.name| < |rules[i].pattern.name|)
  }

  /** The rule that decides. */
  ghost predicate Decides<T>(rules: seq<Rule<T>>, name: Name, i: nat) {
    FirstExact(rules, name, i) || LongestSuffix(rules, name, i) || LongestWildcard(rules, name, i)
  }

  /** Only one rule decides. */
  lemma OneDecides<T>(rules: seq<Rule<T>>, name: Name, i: nat, j: nat)
    requires Decides(rules, name, i) && Decides(rules, name, j)
    ensures i == j
  {
    hide SameName, EndsWith;
  }

  lemma WinsDecides<T>(rules: seq<Rule<T>>, name: Name, i: nat)
    requires Wins(rules, name, i)
    ensures Decides(rules, name, i)
  {
    hide EndsWith;
    var p := rules[i].pattern;
    forall j | 0 <= j < |rules| && ExactMatch(rules[j].pattern, name) ensures p.Exact? && i <= j {
      assert Matches(rules[j].pattern, name) && !Above(Of(rules[j]), Of(rules[i]));
      assert |rules[j].pattern.name| == |Fold(name)|;
    }
    forall j | 0 <= j < |rules| && SuffixMatch(rules[j].pattern, name) ensures !p.Wildcard? {
      assert Matches(rules[j].pattern, name) && !Above(Of(rules[j]), Of(rules[i]));
    }
  }

  /** What resolving gives, by the kinds and label counts of the rules. */
  ghost predicate Decided<T(!new)>(rules: seq<Rule<T>>, name: Name, r: Option<T>) {
    match r
    case None =>
      forall i :: 0 <= i < |rules| ==>
        !ExactMatch(rules[i].pattern, name) && !SuffixMatch(rules[i].pattern, name) && !WildcardMatch(rules[i].pattern, name)
    case Some(value) => exists i: nat :: Decides(rules, name, i) && rules[i].value == value
  }

  lemma ResolvedDecided<T(!new)>(rules: seq<Rule<T>>, name: Name, r: Option<T>)
    requires Resolved(rules, name, r)
    ensures Decided(rules, name, r)
  {
    hide Decides;
    if r.Some? {
      var i: nat :| Wins(rules, name, i) && rules[i].value == r.value;
      WinsDecides(rules, name, i);
    }
  }

  /** Exact rules first, then suffixes, then wildcards; within a kind, more labels first. */
  predicate NotAfter(p: Pattern, q: Pattern) {
    match p
    case Exact(_) => q.Exact? ==> |p.name| >= |q.name|
    case Suffix(_) => !q.Exact? && (q.Suffix? ==> |p.name| >= |q.name|)
    case Wildcard(_) => q.Wildcard? && |p.name| >= |q.name|
  }

  ghost predicate InPrecedence<T>(rs: seq<Rule<T>>) {
    forall i, j :: 0 <= i < j < |rs| ==> NotAfter(rs[i].pattern, rs[j].pattern)
  }

  predicate SameShape(p: Pattern, q: Pattern) {
    (p.Exact? <==> q.Exact?) && (p.Suffix? <==> q.Suffix?) && |p.name| == |q.name|
  }

  /** The subsequence of rules of one kind and label count. */
  function Shaped<T>(rs: seq<Rule<T>>, p: Pattern): seq<Rule<T>> {
    if rs == [] then [] else (if SameShape(rs[0].pattern, p) then [rs[0]] else []) + Shaped(rs[1..], p)
  }

  lemma {:induction false} ShapedIsScored<T>(rs: seq<Rule<T>>, p: Pattern)
    ensures Shaped(rs, p) == WithScore(rs, Specificity(p))
  {
    if rs != [] {
      ShapedIsScored(rs[1..], p);
    }
  }

  lemma SortedInPrecedence<T(!new)>(sorted: seq<Rule<T>>, rs: seq<Rule<T>>)
    requires StableSort(sorted, rs)
    ensures InPrecedence(sorted) && forall p :: Shaped(sorted, p) == Shaped(rs, p)
  {
    forall p ensures Shaped(sorted, p) == Shaped(rs, p) {
      ShapedIsScored(sorted, p);
      ShapedIsScored(rs, p);
    }
    forall i, j | 0 <= i < j < |sorted| ensures NotAfter(sorted[i].pattern, sorted[j].pattern) {
      assert !Above(Of(sorted[j]), Of(sorted[i]));
    }
  }

  // ---------------------------------------------------------------------------------------
  // The matcher

  class DomainMatcher<T(!new)> {
    var rules: seq<Rule<T>>

    constructor ()
      ensures rules == []
    {
      rules := [];
    }

    method Insert(pattern: Pattern, value: T)
      modifies this
      ensures rules == old(rules) + [Rule(pattern, value)]
    {
      rules := rules + [Rule(pattern, value)];
    }

    /**
     The value of the first matching exact rule; failing that, of the first matching suffix rule of most labels;
     failing that, of the first matching wildcard rule of most labels.
     */
    method Resolve(name: Name) returns (r: Option<T>)
      ensures Decided(rules, name, r) && Resolved(rules, name, r)
    {
      hide Matches, Specificity, Decided;
      var best: Option<(Score, T)> := None;
      ghost var at: nat := 0;
      for n := 0 to |rules|
        invariant best.None? ==> forall i :: 0 <= i < n ==> !Matches(rules[i].pattern, name)
        invariant best.Some? ==> at < n && Wins(rules[..n], name, at) && best.value == (Of(rules[at]), rules[at].value)
      {
        var rule := rules[n];
        assert rules[..n + 1] == rules[..n] + [rule];
        if Matches(rule.pattern, name) {
          var score := Specificity(rule.pattern);
          if best.None? || Above(score, best.value.0) {
            best := Some((score, rule.value));
            at := n;
          }
        }
      }
      assert rules[..|rules|] == rules;
      if best.None? {
        assert forall i :: 0 <= i < |rules| ==> !Matches(rules[i].pattern, name);
        ResolvedDecided(rules, name, None);
        return None;
      }
      ResolvedDecided(rules, name, Some(best.value.1));
      return Some(best.value.1);
    }

    /** Every matching rule, most specific first and in insertion order among equals. */
    method ResolveAll(name: Name) returns (sorted: seq<Rule<T>>)
      ensures InPrecedence(sorted) && forall p :: Shaped(sorted, p) == Shaped(Matching(rules, name), p)
      ensures StableSort(sorted, Matching(rules, name))
    {
      hide Matches, Specificity, StableSort, Shaped;
      sorted := [];
      NothingSorted<T>();
      for n := 0 to |rules|
        invariant StableSort(sorted, Matching(rules[..n], name))
      {
        var rule := rules[n];
        assert rules[..n + 1][..n] == rules[..n] && rules[..n + 1][n] == rule;
        if Matches(rule.pattern, name) {
          var at := FindPlace(sorted, Matching(rules[..n], name), rule);
          InsertedStable(sorted, Matching(rules[..n], name), rule, at);
          sorted := sorted[..at] + [rule] + sorted[at..];
        }
      }
      assert rules[..|rules|] == rules;
      SortedInPrecedence(sorted, Matching(rules, name));
    }
  }

  lemma NothingSorted<T(!new)>()
    ensures StableSort<T>([], [])
  {
  }

  /** Where a rule goes in a sorted sequence: after everything at least as specific. */
  method FindPlace<T(!new)>(sorted: seq<Rule<T>>, ghost rs: seq<Rule<T>>, x: Rule<T>) returns (at: nat)
    requires StableSort(sorted, rs)
    ensures at <= |sorted|
    ensures forall i :: 0 <= i < at ==> !Above(Of(x), Of(sorted[i]))
    ensures forall i :: at <= i < |sorted| ==> Above(Of(x), Of(sorted[i]))
  {
    at := |sorted|;
    while at > 0 && Above(Of(x), Of(sorted[at - 1]))
      invariant at <= |sorted| && forall i :: at <= i < |sorted| ==> Above(Of(x), Of(sorted[i]))
    {
      at := at - 1;
    }
    assert at > 0 ==> forall i :: 0 <= i < at ==> !Above(Of(sorted[at - 1]), Of(sorted[i]));
  }
}
