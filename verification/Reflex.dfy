/**
 Reflex bundles: parsing refuses repeated rule ids, evaluation sorts the rules that fire and
 lets a halt override everything softer.  For a parsed bundle the answer depends on the set
 of rules only.
 */
module Reflex {
  import opened Common
  import Sorting
  import Order
  import Text

  datatype Action = InjectReminder(body: string) | HaltSession(reason: string) | ForceToolChoice(tool: string)

  datatype Rule = Rule(id: string, name: string, priority: int, trigger: string, action: Action)

  const MAX_RULES := 128

  // ----- Parsing -----

  /** What the trigger and action checks, outside this model, say of one rule. */
  type Checks = Rule -> bool

  ghost predicate DistinctIds(rules: seq<Rule>) {
    forall i, j | 0 <= i < j < |rules| :: rules[i].id != rules[j].id
  }

  predicate Named(rule: Rule) {
    Text.TrimSpace(rule.id) != "" && Text.TrimSpace(rule.name) != ""
  }

  /** Each rule has an id and a name that are not only space, each passes its own checks, and
      no id is there twice. */
  ghost predicate AllRight(rules: seq<Rule>, checks: Checks) {
    && (forall i, j | 0 <= i < j < |rules| :: rules[i].id != rules[j].id)
    && forall r <- rules :: !Text.Blank(r.id) && !Text.Blank(r.name) && checks(r)
  }

  lemma FineIs(rules: seq<Rule>, checks: Checks)
    ensures Fine(rules, checks) <==> AllRight(rules, checks)
  {
    hide Named, Text.Blank;
    forall r <- rules ensures Named(r) <==> !Text.Blank(r.id) && !Text.Blank(r.name) { NamedIs(r); }
  }

  lemma NamedIs(r: Rule)
    ensures Named(r) <==> !Text.Blank(r.id) && !Text.Blank(r.name)
  {
    hide Text.Blank, Text.TrimSpace;
    Text.TrimSpaceBlank(r.id);
    Text.TrimSpaceBlank(r.name);
  }

  /** The rule loop of `ParseReflexBundle`. */
  method ParseRules(rules: seq<Rule>, checks: Checks) returns (ok: bool)
    ensures ok <==> 0 < |rules| <= 128 && AllRight(rules, checks)
  {
    hide Named, Fine, Ids, AllRight;
    FineIs(rules, checks);
    if |rules| == 0 || |rules| > MAX_RULES {
      return false;
    }
    var seen: set<string> := {};
    ParsedNone(rules[..0], checks);
    for n := 0 to |rules|
      invariant Fine(rules[..n], checks) && seen == Ids(rules[..n])
    {
      var rule := rules[n];
      assert rules[..n + 1] == rules[..n] + [rule];
      FineSnoc(rules[..n], rule, checks);
      if !Named(rule) || rule.id in seen || !checks(rule) {
        FinePrefix(rules, n + 1, checks);
        return false;
      }
      seen := seen + {rule.id};
    }
    assert rules[..|rules|] == rules;
    return true;
  }

  ghost function Ids(rules: seq<Rule>): set<string> {
    set r <- rules :: r.id
  }

  ghost predicate Fine(rules: seq<Rule>, checks: Checks) {
    DistinctIds(rules) && forall r <- rules :: Named(r) && checks(r)
  }

  lemma ParsedNone(rules: seq<Rule>, checks: Checks)
    requires rules == []
    ensures Fine(rules, checks) && Ids(rules) == {}
  {
  }

  lemma FineSnoc(rules: seq<Rule>, rule: Rule, checks: Checks)
    requires Fine(rules, checks)
    ensures Fine(rules + [rule], checks) <==> Named(rule) && rule.id !in Ids(rules) && checks(rule)
    ensures Ids(rules + [rule]) == Ids(rules) + {rule.id}
  {
    hide Named;
    var more := rules + [rule];
    assert more[|rules|] == rule;
    assert DistinctIds(more) ==> forall k | 0 <= k < |rules| :: more[k].id != more[|rules|].id;
    assert forall k | 0 <= k < |rules| :: more[k] == rules[k];
    assert rule.id in Ids(rules) ==> exists k :: 0 <= k < |rules| && rules[k].id == rule.id;
    forall id ensures id in Ids(more) <==> id in Ids(rules) + {rule.id} {
      if id in Ids(rules) {
        var r :| r in rules && r.id == id;
        assert r in more;
      }
    }
  }

  lemma FinePrefix(rules: seq<Rule>, n: nat, checks: Checks)
    requires n <= |rules|
    ensures Fine(rules, checks) ==> Fine(rules[..n], checks)
  {
    hide Named;
  }

  // ----- Evaluation -----

  datatype Verdict = Fires | Quiet | Broken

  /** The published trigger evaluator, on a fixed state. */
  type Triggers = Rule -> Verdict

  function Fired(rules: seq<Rule>, triggers: Triggers): seq<Rule> {
    if rules == [] then []
    else
      var m := |rules| - 1;
      Fired(rules[..m], triggers) + if triggers(rules[m]).Fires? then [rules[m]] else []
  }

  /** Higher priority first, then the smaller id. */
  predicate Before(a: Rule, b: Rule) {
    if a.priority != b.priority then a.priority > b.priority else Order.Leq(a.id, b.id)
  }

  predicate IsHalt(r: Rule) {
    r.action.HaltSession?
  }

  function Overridden(sorted: seq<Rule>): seq<Rule> {
    if sorted == [] then []
    else if IsHalt(sorted[0]) then [sorted[0]]
    else
      var rest := Overridden(sorted[1..]);
      if rest != [] && IsHalt(rest[0]) then rest else [sorted[0]] + rest
  }

  function Answer(rules: seq<Rule>, triggers: Triggers): seq<Rule> {
    Overridden(Sorting.Sort(Fired(rules, triggers), Before))
  }

  /** `Evaluate`; `cancelledAt` is the rule before which the context is found cancelled. */
  method Evaluate(rules: seq<Rule>, triggers: Triggers, cancelledAt: Option<nat>) returns (r: Option<seq<Rule>>)
    ensures r.None? <==> Stops(rules, triggers, cancelledAt)
    ensures r.Some? ==> r.value == Answer(rules, triggers)
  {
    var fired: seq<Rule> := [];
    for n := 0 to |rules|
      invariant !Stops(rules[..n], triggers, cancelledAt)
      invariant fired == Fired(rules[..n], triggers)
    {
      assert rules[..n + 1][..n] == rules[..n];
      if cancelledAt == Some(n) {
        return None;
      }
      var verdict := triggers(rules[n]);
      if verdict.Broken? {
        assert rules[n] in rules;
        return None;
      }
      if verdict.Fires? {
        fired := fired + [rules[n]];
      }
    }
    assert rules[..|rules|] == rules;
    fired := Sorting.Sort(fired, Before);
    for n := 0 to |fired|
      invariant forall k | 0 <= k < n :: !IsHalt(fired[k])
    {
      if IsHalt(fired[n]) {
        FirstHalt(fired, n);
        return Some([fired[n]]);
      }
    }
    NoHalt(fired);
    return Some(fired);
  }

  ghost predicate Stops(rules: seq<Rule>, triggers: Triggers, cancelledAt: Option<nat>) {
    (exists r <- rules :: triggers(r).Broken?) || (cancelledAt.Some? && cancelledAt.value < |rules|)
  }

  lemma {:induction false} FirstHalt(s: seq<Rule>, n: nat)
    requires n < |s| && IsHalt(s[n]) && forall k | 0 <= k < n :: !IsHalt(s[k])
    ensures Overridden(s) == [s[n]]
    decreases n
  {
    if n > 0 { FirstHalt(s[1..], n - 1); }
  }

  lemma {:induction false} NoHalt(s: seq<Rule>)
    requires forall k | 0 <= k < |s| :: !IsHalt(s[k])
    ensures Overridden(s) == s
    decreases |s|
  {
    if s != [] { NoHalt(s[1..]); }
  }

  // ----- The answer depends on the set of rules only -----

  lemma BeforeOrders()
    ensures Sorting.TotalPreorder(Before)
  {
    Order.LeqSorts();
    forall a, b, c | Before(a, b) && Before(b, c) ensures Before(a, c) {
      if a.priority == b.priority == c.priority {
        assert Order.Leq(a.id, c.id);
      }
    }
  }

  lemma {:induction false} FiredIs(rules: seq<Rule>, triggers: Triggers, r: Rule)
    ensures r in Fired(rules, triggers) <==> r in rules && triggers(r).Fires?
    ensures multiset(Fired(rules, triggers))[r] == if triggers(r).Fires? then multiset(rules)[r] else 0
    decreases |rules|
  {
    if rules != [] {
      var m := |rules| - 1;
      FiredIs(rules[..m], triggers, r);
      assert rules == rules[..m] + [rules[m]];
    }
  }

  lemma NoTiesWhenDistinct(rules: seq<Rule>, triggers: Triggers)
    requires DistinctIds(rules)
    ensures Sorting.NoTies(Fired(rules, triggers), Before)
  {
    Order.LeqSorts();
    forall a, b | a in Fired(rules, triggers) && b in Fired(rules, triggers) && Before(a, b) && Before(b, a)
        ensures a == b {
      FiredIs(rules, triggers, a);
      FiredIs(rules, triggers, b);
      IdsMeet(a.id, b.id);
      SameId(rules, a, b);
    }
  }

  lemma IdsMeet(x: string, y: string)
    requires Order.Leq(x, y) && Order.Leq(y, x)
    ensures x == y
  {
    Order.LessTotal(x, y);
  }

  lemma SameId(rules: seq<Rule>, a: Rule, b: Rule)
    requires DistinctIds(rules) && a in rules && b in rules && a.id == b.id
    ensures a == b
  {
    var i :| 0 <= i < |rules| && rules[i] == a;
    var j :| 0 <= j < |rules| && rules[j] == b;
    assert i == j;
  }

  /** Listing the rules of a parsed bundle in another order changes neither the answer nor
      whether there is one. */
  lemma OrderIrrelevant(a: seq<Rule>, b: seq<Rule>, triggers: Triggers)
    requires DistinctIds(a) && multiset(a) == multiset(b)
    ensures Answer(a, triggers) == Answer(b, triggers)
    ensures Stops(a, triggers, None) <==> Stops(b, triggers, None)
  {
    forall r ensures multiset(Fired(a, triggers))[r] == multiset(Fired(b, triggers))[r] {
      FiredIs(a, triggers, r);
      FiredIs(b, triggers, r);
    }
    assert multiset(Fired(a, triggers)) == multiset(Fired(b, triggers));
    NoTiesWhenDistinct(a, triggers);
    BeforeOrders();
    Sorting.SortForgetsOrder(Fired(a, triggers), Fired(b, triggers), Before);
    forall r ensures r in a <==> r in b { Sorting.SameMembers(a, b, r); }
  }

  /** The rule asks for a halt, and its trigger fires. */
  predicate Halts(r: Rule, triggers: Triggers) {
    triggers(r) == Fires && r.action.HaltSession?
  }

  /** Nothing puts `b` in front of `a`: neither a higher priority nor, at the same one, a
      smaller id. */
  ghost predicate NotAfter(a: Rule, b: Rule) {
    a.priority >= b.priority && (a.priority == b.priority ==> forall k :: !Order.FirstDiffer(b.id, a.id, k))
  }

  lemma NotAfterIsBefore(a: Rule, b: Rule)
    ensures NotAfter(a, b) <==> Before(a, b)
  {
    Order.LessExactly(b.id, a.id);
  }

  /** The answer without sorting: the fired halt that comes first, alone, or all the fired
      rules, as often as they are listed, by falling priority and then rising id, when none of
      them is a halt. */
  ghost predicate Meant(rules: seq<Rule>, triggers: Triggers, answer: seq<Rule>) {
    if exists h <- rules :: Halts(h, triggers) then
      |answer| == 1 && answer[0] in rules && Halts(answer[0], triggers)
      && forall h <- rules | Halts(h, triggers) :: NotAfter(answer[0], h)
    else
      && (forall i, j | 0 <= i < j < |answer| :: NotAfter(answer[i], answer[j]))
      && forall r :: multiset(answer)[r] == if triggers(r) == Fires then multiset(rules)[r] else 0
  }

  /** The same in terms of the fired rules and the sorting order. */
  ghost predicate MeantSorted(fired: seq<Rule>, answer: seq<Rule>) {
    if exists h <- fired :: IsHalt(h) then
      |answer| == 1 && answer[0] in fired && IsHalt(answer[0]) && forall h <- fired | IsHalt(h) :: Before(answer[0], h)
    else
      Sorting.Sorted(answer, Before) && multiset(answer) == multiset(fired)
  }

  lemma MeantIs(rules: seq<Rule>, triggers: Triggers, answer: seq<Rule>)
    ensures Meant(rules, triggers, answer) <==> MeantSorted(Fired(rules, triggers), answer)
  {
    hide Fired, Before, NotAfter;
    var fired := Fired(rules, triggers);
    forall a, b ensures NotAfter(a, b) <==> Before(a, b) { NotAfterIsBefore(a, b); }
    forall r ensures r in fired <==> r in rules && triggers(r).Fires? { FiredIs(rules, triggers, r); }
    forall r ensures multiset(fired)[r] == if triggers(r) == Fires then multiset(rules)[r] else 0 {
      FiredIs(rules, triggers, r);
    }
    HaltsAlike(rules, fired, triggers);
  }

  lemma HaltsAlike(rules: seq<Rule>, fired: seq<Rule>, triggers: Triggers)
    requires forall r :: r in fired <==> r in rules && triggers(r).Fires?
    ensures (exists h <- rules :: Halts(h, triggers)) <==> (exists h <- fired :: IsHalt(h))
  {
  }

  lemma AnswerIsMeant(rules: seq<Rule>, triggers: Triggers)
    ensures Meant(rules, triggers, Answer(rules, triggers))
  {
    hide Fired, Before, Meant;
    MeantIs(rules, triggers, Answer(rules, triggers));
    var fired := Fired(rules, triggers);
    var s := Sorting.Sort(fired, Before);
    BeforeOrders();
    Sorting.SortKeeps(fired, Before);
    forall r ensures r in s <==> r in fired { Sorting.SameMembers(s, fired, r); }
    if h :| h in fired && IsHalt(h) {
      var n := LeastHalt(s, h);
      FirstHalt(s, n);
      forall g | g in fired && IsHalt(g) ensures Before(s[n], g) {
        HaltAfter(s, n, g);
      }
    } else {
      NoHalt(s);
    }
  }

  lemma {:induction false} LeastHalt(s: seq<Rule>, h: Rule) returns (n: nat)
    requires h in s && IsHalt(h)
    ensures n < |s| && IsHalt(s[n]) && forall k | 0 <= k < n :: !IsHalt(s[k])
    decreases |s|
  {
    if IsHalt(s[0]) {
      n := 0;
    } else {
      n := LeastHalt(s[1..], h);
      n := n + 1;
      forall k | 0 <= k < n ensures !IsHalt(s[k]) {
        if k > 0 { assert s[1..][k - 1] == s[k]; }
      }
    }
  }

  lemma HaltAfter(s: seq<Rule>, n: nat, g: Rule)
    requires Sorting.TotalPreorder(Before) && Sorting.Sorted(s, Before)
    requires n < |s| && g in s && IsHalt(g) && forall k | 0 <= k < n :: !IsHalt(s[k])
    ensures Before(s[n], g)
  {
    hide Before;
    var j :| 0 <= j < |s| && s[j] == g;
    assert n <= j;
  }

  /** Nothing else is meant: the description fixes the answer of a parsed bundle. */
  lemma MeantIsUnique(rules: seq<Rule>, triggers: Triggers, x: seq<Rule>, y: seq<Rule>)
    requires DistinctIds(rules) && Meant(rules, triggers, x) && Meant(rules, triggers, y)
    ensures x == y
  {
    hide Before, Fired, Meant;
    MeantIs(rules, triggers, x);
    MeantIs(rules, triggers, y);
    NoTiesWhenDistinct(rules, triggers);
    var fired := Fired(rules, triggers);
    if exists h <- fired :: IsHalt(h) {
      assert Before(x[0], y[0]) && Before(y[0], x[0]);
    } else {
      forall r ensures r in x <==> r in fired { Sorting.SameMembers(x, fired, r); }
      Sorting.SortedIsUnique(x, y, Before);
    }
  }
}
