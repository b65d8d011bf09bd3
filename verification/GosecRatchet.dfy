/**
 The security-scan gate: two reports of the same tree must agree, and the first is then held
 against a baseline of per-rule counts and enumerated known noise.

 Reports are JSON values as the script sees them after loading, compared by its language's
 `==`, under which 1, 1.0 and true are equal.  Floats are the finite ones.
 */
module GosecRatchet {
  import opened Common
  import opened Counting
  import Sorting
  import Order
  import Text

  datatype Json =
    | Null
    | Bool(b: bool)
    | Int(n: int)
    | Float(x: real)
    | Str(s: string)
    | List(items: seq<Json>)
    | Object(fields: map<string, Json>)

  type Report = map<string, Json>

  const ERRORS := "Golang errors"
  const STATS := "Stats"
  const ISSUES := "Issues"
  const VERSION := "GosecVersion"

  /** `dict.get`: an absent key and a null read alike. */
  function Get(o: map<string, Json>, key: string): Json {
    if key in o then o[key] else Null
  }

  // ----- Equality of loaded values -----

  predicate IsNumber(v: Json) {
    v.Bool? || v.Int? || v.Float?
  }

  function Number(v: Json): real
    requires IsNumber(v)
  {
    match v
    case Bool(b) => if b then 1.0 else 0.0
    case Int(n) => n as real
    case Float(x) => x
  }

  predicate Equal(a: Json, b: Json) {
    if IsNumber(a) && IsNumber(b) then Number(a) == Number(b)
    else if a.List? && b.List? then
      |a.items| == |b.items| && forall i | 0 <= i < |a.items| :: Equal(a.items[i], b.items[i])
    else if a.Object? && b.Object? then
      a.fields.Keys == b.fields.Keys && forall k | k in a.fields :: Equal(a.fields[k], b.fields[k])
    else a == b
  }

  lemma {:induction false} EqualReflexive(a: Json)
    ensures Equal(a, a)
  {
    match a
    case List(items) =>
      forall i | 0 <= i < |items| ensures Equal(items[i], items[i]) { EqualReflexive(items[i]); }
    case Object(fields) =>
      forall k | k in fields ensures Equal(fields[k], fields[k]) { EqualReflexive(fields[k]); }
    case _ =>
  }

  // ----- Agreement -----

  /** What is used of the serializer with sorted keys: no two of the values it is given share
      a text. */
  ghost predicate Faithful(dumps: Json -> string, values: set<Json>) {
    forall a, b | a in values && b in values && dumps(a) == dumps(b) :: a == b
  }

  /** The values the agreement check serializes. */
  ghost function Serialized(r1: Report, r2: Report): set<Json> {
    SerializedOf(Get(r1, ISSUES)) + SerializedOf(Get(r2, ISSUES))
  }

  ghost function SerializedOf(issues: Json): set<Json> {
    if issues.List? then set issue <- issues.items else {issues}
  }

  function Texts(issues: seq<Json>, dumps: Json -> string): seq<string> {
    seq(|issues|, i requires 0 <= i < |issues| => dumps(issues[i]))
  }

  datatype Fingerprint = Listed(texts: seq<string>) | Unlisted(text: string)

  function IssuesPrint(r: Report, dumps: Json -> string): Fingerprint {
    match Get(r, ISSUES)
    case List(issues) => Listed(Sorting.Sort(Texts(issues, dumps), Order.Leq))
    case other => Unlisted(dumps(other))
  }

  predicate Agree(r1: Report, r2: Report, dumps: Json -> string) {
    && Equal(Get(r1, VERSION), Get(r2, VERSION))
    && Equal(Get(r1, STATS), Get(r2, STATS))
    && Equal(Get(r1, ERRORS), Get(r2, ERRORS))
    && IssuesPrint(r1, dumps) == IssuesPrint(r2, dumps)
  }

  /** The same findings, in any order. */
  ghost predicate SameIssues(r1: Report, r2: Report) {
    var i1, i2 := Get(r1, ISSUES), Get(r2, ISSUES);
    if i1.List? && i2.List? then multiset(i1.items) == multiset(i2.items) else i1 == i2
  }

  /** Equal text multisets are equal value multisets, and back. */
  lemma {:induction false} TextsFaithful(a: seq<Json>, b: seq<Json>, dumps: Json -> string, values: set<Json>)
    requires Faithful(dumps, values) && (forall x <- a :: x in values) && forall x <- b :: x in values
    ensures multiset(Texts(a, dumps)) == multiset(Texts(b, dumps)) <==> multiset(a) == multiset(b)
    decreases |a|
  {
    SameSize(Texts(a, dumps), Texts(b, dumps));
    SameSize(a, b);
    if |a| == |b| && a != [] {
      if k: nat :| k < |b| && b[k] == a[0] {
        assert forall x <- b[..k] + b[k + 1..] :: x in b;
        TextsFaithful(a[1..], b[..k] + b[k + 1..], dumps, values);
        Matching(a, b, k, dumps);
      } else {
        Unmatched(a, b, dumps, values);
      }
    }
  }

  lemma TakeOut<T>(a: seq<T>, b: seq<T>, k: nat)
    requires a != [] && k < |b| && b[k] == a[0]
    ensures multiset(a) == multiset(b) <==> multiset(a[1..]) == multiset(b[..k] + b[k + 1..])
  {
    assert a == [a[0]] + a[1..];
    assert b == b[..k] + [b[k]] + b[k + 1..];
    Cancel(a[0], multiset(a[1..]), multiset(b[..k] + b[k + 1..]));
  }

  /** The first value of one side taken out of both. */
  lemma Matching(a: seq<Json>, b: seq<Json>, k: nat, dumps: Json -> string)
    requires a != [] && k < |b| && b[k] == a[0]
    ensures var b' := b[..k] + b[k + 1..];
            && (multiset(a) == multiset(b) <==> multiset(a[1..]) == multiset(b'))
            && (multiset(Texts(a, dumps)) == multiset(Texts(b, dumps))
                <==> multiset(Texts(a[1..], dumps)) == multiset(Texts(b', dumps)))
  {
    var ta, tb := Texts(a, dumps), Texts(b, dumps);
    assert Texts(a[1..], dumps) == ta[1..];
    assert Texts(b[..k] + b[k + 1..], dumps) == tb[..k] + tb[k + 1..];
    hide Texts;
    TakeOut(a, b, k);
    TakeOut(ta, tb, k);
  }

  lemma Unmatched(a: seq<Json>, b: seq<Json>, dumps: Json -> string, values: set<Json>)
    requires Faithful(dumps, values) && a != [] && a[0] !in b && a[0] in values && forall x <- b :: x in values
    ensures multiset(a) != multiset(b) && multiset(Texts(a, dumps)) != multiset(Texts(b, dumps))
  {
    NoText(a[0], b, dumps, values);
    assert a[0] in multiset(a) && a[0] !in multiset(b);
    assert Texts(a, dumps)[0] == dumps(a[0]);
    assert dumps(a[0]) in multiset(Texts(a, dumps)) && dumps(a[0]) !in multiset(Texts(b, dumps));
  }

  lemma SameSize<T>(a: seq<T>, b: seq<T>)
    ensures multiset(a) == multiset(b) ==> |a| == |b|
    ensures |a| == |b| == 0 ==> multiset(a) == multiset(b)
  {
    assert |multiset(a)| == |a| && |multiset(b)| == |b|;
  }

  lemma Cancel<T>(x: T, a: multiset<T>, b: multiset<T>)
    ensures multiset{x} + a == multiset{x} + b <==> a == b
  {
    if multiset{x} + a == multiset{x} + b {
      assert a == (multiset{x} + a) - multiset{x};
      assert b == (multiset{x} + b) - multiset{x};
    }
  }

  lemma NoText(x: Json, s: seq<Json>, dumps: Json -> string, values: set<Json>)
    requires Faithful(dumps, values) && x !in s && x in values && forall y <- s :: y in values
    ensures dumps(x) !in Texts(s, dumps)
  {
    forall k: nat | k < |Texts(s, dumps)| ensures Texts(s, dumps)[k] != dumps(x) {
      assert s[k] in s;
    }
  }

  /** Comparing sorted serializations is comparing multisets of findings. */
  lemma AgreementIsMultiset(r1: Report, r2: Report, dumps: Json -> string)
    requires Faithful(dumps, Serialized(r1, r2))
    ensures IssuesPrint(r1, dumps) == IssuesPrint(r2, dumps) <==> SameIssues(r1, r2)
  {
    var i1, i2 := Get(r1, ISSUES), Get(r2, ISSUES);
    if i1.List? && i2.List? {
      Order.LeqSorts();
      Sorting.SortForgetsOrder(Texts(i1.items, dumps), Texts(i2.items, dumps), Order.Leq);
      TextsFaithful(i1.items, i2.items, dumps, Serialized(r1, r2));
    }
  }

  /** Two reports of one scan: the same tool, coverage and errors, and the same findings in any
      order. */
  ghost predicate SameScan(r1: Report, r2: Report) {
    && Equal(Get(r1, "GosecVersion"), Get(r2, "GosecVersion")) && Equal(Get(r1, "Stats"), Get(r2, "Stats"))
    && Equal(Get(r1, "Golang errors"), Get(r2, "Golang errors")) && SameIssues(r1, r2)
  }

  lemma AgreementExactly(r1: Report, r2: Report, dumps: Json -> string)
    requires Faithful(dumps, Serialized(r1, r2))
    ensures Agree(r1, r2, dumps) <==> SameScan(r1, r2)
  {
    hide Equal, Faithful, IssuesPrint, SameIssues;
    AgreementIsMultiset(r1, r2, dumps);
  }

  // ----- Known noise -----

  /** An enumerated exception, as validated on loading. */
  datatype Policy = Policy(file: string, ruleId: string, symbol: string)

  function Slashes(s: string): string {
    if s == [] then [] else [if s[0] == '\\' then '/' else s[0]] + Slashes(s[1..])
  }

  /** What follows the last occurrence of a marker. */
  function AfterLast(s: string, marker: string): Option<string> {
    if |s| < |marker| then None
    else
      var later := if s == [] then None else AfterLast(s[1..], marker);
      if later.Some? then later
      else if s[..|marker|] == marker then Some(s[|marker|..])
      else None
  }

  function RelativePath(raw: Json): string {
    if !raw.Str? then ""
    else
      var path := Slashes(raw.s);
      match AfterLast(path, MARKER)
      case Some(tail) => "internal/" + tail
      case None => if |path| >= 2 && path[..2] == "./" then path[2..] else path
  }

  const MARKER := "/internal/"

  lemma NoneAfter(s: string, marker: string)
    requires |marker| > 0 && !Text.Contains(s, marker)
    ensures AfterLast(s, marker) == None
    decreases |s|
  {
    assert !Text.At(s, marker, 0);
    if |s| >= |marker| {
      forall i ensures !Text.At(s[1..], marker, i) {
        if 0 <= i { Text.AtTail(s, marker, i + 1); }
      }
      NoneAfter(s[1..], marker);
    }
  }

  /** Nothing of the marker begins inside its own first occurrence or in `rest`. */
  lemma NoneInside(rest: string)
    requires !Text.Contains("/" + rest, MARKER)
    ensures !Text.Contains((MARKER + rest)[1..], MARKER)
  {
    var t := (MARKER + rest)[1..];
    var head, tail := "internal", "/" + rest;
    assert t == head + tail;
    forall i ensures !Text.At(t, MARKER, i) {
      if i >= |head| {
        Text.AtRight(head, tail, MARKER, i);
      } else if Text.At(t, MARKER, i) {
        Text.AtChar(t, MARKER, i, 0);
      }
    }
  }

  lemma {:induction false} AfterMarker(prefix: string, rest: string)
    requires !Text.Contains("/" + rest, MARKER)
    ensures AfterLast(prefix + MARKER + rest, MARKER) == Some(rest)
    decreases |prefix|
  {
    var s := prefix + MARKER + rest;
    if prefix == "" {
      assert s == MARKER + rest;
      NoneInside(rest);
      NoneAfter(s[1..], MARKER);
    } else {
      AfterMarker(prefix[1..], rest);
      assert s[1..] == prefix[1..] + MARKER + rest;
    }
  }

  /** A finding's path does not depend on where the tree was checked out, nor on which way
      its slashes lean. */
  lemma CheckoutIrrelevant(raw: string, prefix: string, rest: string)
    requires Slashes(raw) == prefix + MARKER + rest && !Text.Contains("/" + rest, MARKER)
    ensures RelativePath(Str(raw)) == "internal/" + rest
  {
    AfterMarker(prefix, rest);
  }

  lemma {:induction false} SlashesIs(s: string)
    ensures |Slashes(s)| == |s|
    ensures forall i | 0 <= i < |s| :: Slashes(s)[i] == if s[i] == '\\' then '/' else s[i]
  {
    if s != [] { SlashesIs(s[1..]); }
  }

  /** The last occurrence of a marker ends where the tail begins. */
  lemma {:induction false} LastSplit(s: string, marker: string) returns (prefix: string)
    requires marker != "" && AfterLast(s, marker).Some?
    ensures var tail := AfterLast(s, marker).value;
            s == prefix + marker + tail && !Text.Contains((marker + tail)[1..], marker)
    decreases |s|
  {
    var tail := AfterLast(s, marker).value;
    if AfterLast(s[1..], marker).Some? {
      var rest := LastSplit(s[1..], marker);
      prefix := [s[0]] + rest;
      assert s == [s[0]] + s[1..];
      assert [s[0]] + (rest + marker + tail) == prefix + marker + tail;
    } else {
      prefix := "";
      assert s == marker + tail;
      SomeAfter(s[1..], marker);
    }
  }

  lemma {:induction false} SomeAfter(s: string, marker: string)
    requires marker != "" && AfterLast(s, marker).None?
    ensures !Text.Contains(s, marker)
    decreases |s|
  {
    if |s| >= |marker| {
      SomeAfter(s[1..], marker);
      Text.NotFirst(s, marker);
      Text.NotFoundLater(s, marker);
    }
  }

  /** `path` names the place a finding gives: its path with the slashes one way, from the last
      "internal" directory on when it is under one, else less a leading "./". */
  ghost predicate Names(raw: Json, path: string) {
    if !raw.Str? then path == ""
    else
      exists t ::
        && |t| == |raw.s| && (forall i | 0 <= i < |t| :: t[i] == if raw.s[i] == '\\' then '/' else raw.s[i])
        && if Text.Contains(t, MARKER) then
             exists prefix, rest ::
               t == prefix + MARKER + rest && !Text.Contains("/" + rest, MARKER) && path == "internal/" + rest
           else t == "./" + path || (path == t && !("./" <= t))
  }

  lemma SlashedOne(s: string, t: string)
    requires |t| == |s| && forall i | 0 <= i < |t| :: t[i] == if s[i] == '\\' then '/' else s[i]
    ensures t == Slashes(s)
  {
    SlashesIs(s);
  }

  lemma LessRoot(rest: string)
    ensures Text.Contains("/" + rest, MARKER) ==> Text.Contains((MARKER + rest)[1..], MARKER)
  {
    var head, tail := "internal", "/" + rest;
    assert (MARKER + rest)[1..] == head + tail;
    if i :| Text.At(tail, MARKER, i) {
      Text.AtRight(head, tail, MARKER, |head| + i);
    }
  }

  lemma MarkerIn(prefix: string, rest: string)
    ensures Text.Contains(prefix + MARKER + rest, MARKER)
  {
    assert prefix + MARKER + rest == prefix + (MARKER + rest);
    assert Text.At(MARKER + rest, MARKER, 0);
    Text.AtRight(prefix, MARKER + rest, MARKER, |prefix|);
  }

  /** The path of a string with its slashes turned. */
  lemma PathOf(raw: Json)
    requires raw.Str?
    ensures var t := Slashes(raw.s);
            RelativePath(raw) ==
              match AfterLast(t, MARKER)
              case Some(tail) => "internal/" + tail
              case None => if "./" <= t then t[2..] else t
  {
    var t := Slashes(raw.s);
    assert "./" <= t <==> |t| >= 2 && t[..2] == "./";
  }

  /** The script's path of a finding is the one that names its place, and no other does. */
  lemma PathExactly(raw: Json, path: string)
    ensures RelativePath(raw) == path <==> Names(raw, path)
  {
    if raw.Str? {
      var t := Slashes(raw.s);
      PathOf(raw);
      SlashesIs(raw.s);
      hide Slashes, AfterLast, RelativePath, MARKER;
      forall u | |u| == |raw.s| && forall i | 0 <= i < |u| :: u[i] == if raw.s[i] == '\\' then '/' else raw.s[i]
        ensures u == t
      {
        SlashedOne(raw.s, u);
      }
      PathMatches(t, path);
    }
  }

  lemma PathMatches(t: string, path: string)
    ensures (match AfterLast(t, MARKER)
             case Some(tail) => path == "internal/" + tail
             case None => path == if "./" <= t then t[2..] else t)
       <==> if Text.Contains(t, MARKER) then
              exists prefix, rest ::
                t == prefix + MARKER + rest && !Text.Contains("/" + rest, MARKER) && path == "internal/" + rest
            else t == "./" + path || (path == t && !("./" <= t))
  {
    hide AfterLast;
    if AfterLast(t, MARKER).Some? {
      var tail := AfterLast(t, MARKER).value;
      var prefix := LastSplit(t, MARKER);
      MarkerIn(prefix, tail);
      LessRoot(tail);
      forall prefix, rest | t == prefix + MARKER + rest && !Text.Contains("/" + rest, MARKER) ensures rest == tail {
        AfterMarker(prefix, rest);
      }
    } else {
      SomeAfter(t, MARKER);
      assert "./" <= t ==> t == "./" + t[2..];
    }
  }

  predicate Within(part: string, whole: string) {
    part == "" || Text.Find(whole, part).Some?
  }

  predicate IsNoise(issue: Json, p: Policy) {
    && issue.Object?
    && RelativePath(Get(issue.fields, "file")) == p.file
    && Get(issue.fields, "rule_id") == Str(p.ruleId)
    && Get(issue.fields, "code").Str?
    && Within(p.symbol, Get(issue.fields, "code").s)
  }

  /** An exception excuses a finding at its place, of its rule, in code that holds its symbol. */
  lemma NoiseExactly(issue: Json, p: Policy)
    ensures IsNoise(issue, p) <==>
            && issue.Object? && Names(Get(issue.fields, "file"), p.file)
            && Get(issue.fields, "rule_id") == Str(p.ruleId)
            && Get(issue.fields, "code").Str? && Text.Contains(Get(issue.fields, "code").s, p.symbol)
  {
    hide RelativePath, Names;
    if issue.Object? {
      PathExactly(Get(issue.fields, "file"), p.file);
      if Get(issue.fields, "code").Str? { WithinIs(p.symbol, Get(issue.fields, "code").s); }
    }
  }

  lemma WithinIs(part: string, whole: string)
    ensures Within(part, whole) <==> Text.Contains(whole, part)
  {
    if part == "" { assert Text.At(whole, part, 0); }
  }

  predicate WellFormed(issue: Json) {
    issue.Object? && Get(issue.fields, "rule_id").Str?
  }

  function RuleOf(issue: Json): string
    requires WellFormed(issue)
  {
    Get(issue.fields, "rule_id").s
  }

  // The tests the gate counts by.

  function NoiseOf(p: Policy): Json -> bool {
    issue => IsNoise(issue, p)
  }

  function Hitting(issue: Json): Policy -> bool {
    p => IsNoise(issue, p)
  }

  function Ignored(policies: seq<Policy>): Json -> bool {
    issue => exists p <- policies :: IsNoise(issue, p)
  }

  function Overlaps(policies: seq<Policy>): Json -> bool {
    issue => Count(policies, Hitting(issue)) > 1
  }

  function OfRule(rule: string): Json -> bool {
    issue => WellFormed(issue) && RuleOf(issue) == rule
  }

  function Actionable(policies: seq<Policy>, rule: string): Json -> bool {
    issue => OfRule(rule)(issue) && !Ignored(policies)(issue)
  }

  function ForRule(rule: string): Policy -> bool {
    (p: Policy) => p.ruleId == rule
  }

  // ----- The checks after agreement -----

  datatype Baseline = Baseline(counts: map<string, nat>, policies: seq<Policy>, committed: map<string, Json>)

  /** Anything but a result code is a refusal of the report. */
  datatype Decision = Refused | Exit(code: int)

  const FLOOR_PERCENT := 75

  function Floor(expected: nat): nat {
    (expected * FLOOR_PERCENT + 99) / 100
  }

  predicate ScanClean(r: Report) {
    && ERRORS in r
    && (r[ERRORS].Null?
        || (r[ERRORS].Object? && forall name | name in r[ERRORS].fields :: r[ERRORS].fields[name] == List([])))
  }

  predicate KeyCovered(committed: map<string, Json>, stats: map<string, Json>, key: string) {
    var expected, measured := Get(committed, key), Get(stats, key);
    && expected.Int? && expected.n > 0
    && measured.Int? && measured.n >= 0 && measured.n >= Floor(expected.n)
  }

  predicate CoverageMet(committed: map<string, Json>, r: Report) {
    var source := Get(committed, "source");
    && source.Str? && source.s != ""
    && Get(r, STATS).Object?
    && KeyCovered(committed, Get(r, STATS).fields, "files")
    && KeyCovered(committed, Get(r, STATS).fields, "lines")
  }

  /** Every exception matched once, no finding excused twice, no rule above its baseline. */
  ghost predicate Held(b: Baseline, issues: seq<Json>) {
    && (forall p <- b.policies :: Count(issues, NoiseOf(p)) == 1)
    && (forall issue <- issues :: Count(b.policies, Hitting(issue)) <= 1)
    && (forall rule :: Count(issues, Actionable(b.policies, rule)) <= CountOf(b.counts, rule))
  }

  ghost predicate Usable(b: Baseline, r: Report) {
    && ScanClean(r) && CoverageMet(b.committed, r)
    && Get(r, ISSUES).List? && forall issue <- Get(r, ISSUES).items :: WellFormed(issue)
  }

  ghost function Decide(b: Baseline, r: Report): Decision {
    if !Usable(b, r) then Refused
    else if Held(b, Get(r, ISSUES).items) then Exit(0)
    else Exit(1)
  }

  /** The scan analyzed every package: the report has the errors key, and no error under it. */
  ghost predicate NoErrors(r: Report) {
    ERRORS in r && match r[ERRORS]
                   case Null => true
                   case Object(errors) => forall name | name in errors :: errors[name].List? && errors[name].items == []
                   case _ => false
  }

  /** At least 75 of each 100 committed files and lines were measured, as integers, and the
      committed figures are positive and say where they come from. */
  ghost predicate Measured(committed: map<string, Json>, r: Report) {
    && (exists source :: source != "" && Get(committed, "source") == Str(source))
    && Get(r, STATS).Object?
    && forall key | key == "files" || key == "lines" ::
        exists expected, measured ::
          && Get(committed, key) == Int(expected) && Get(Get(r, STATS).fields, key) == Int(measured)
          && expected > 0 && 100 * measured >= 75 * expected
  }

  /** What the checks after agreement ask of a report, said of the report. */
  ghost predicate Evidence(b: Baseline, r: Report) {
    && NoErrors(r) && Measured(b.committed, r)
    && Get(r, ISSUES).List?
    && forall issue <- Get(r, ISSUES).items :: issue.Object? && Get(issue.fields, "rule_id").Str?
  }

  lemma FloorIs(expected: nat, measured: int)
    ensures measured >= Floor(expected) <==> 100 * measured >= 75 * expected
  {
  }

  lemma KeyExactly(committed: map<string, Json>, stats: map<string, Json>, key: string)
    ensures KeyCovered(committed, stats, key) <==>
        exists expected, measured ::
          && Get(committed, key) == Int(expected) && Get(stats, key) == Int(measured)
          && expected > 0 && 100 * measured >= 75 * expected
  {
    hide Floor;
    var e, m := Get(committed, key), Get(stats, key);
    if e.Int? && m.Int? && e.n > 0 {
      FloorIs(e.n, m.n);
      assert e == Int(e.n) && m == Int(m.n);
    }
  }

  lemma CoverageExactly(committed: map<string, Json>, r: Report)
    ensures CoverageMet(committed, r) <==> Measured(committed, r)
  {
    hide KeyCovered;
    var source := Get(committed, "source");
    assert source.Str? ==> source == Str(source.s);
    if Get(r, STATS).Object? {
      KeyExactly(committed, Get(r, STATS).fields, "files");
      KeyExactly(committed, Get(r, STATS).fields, "lines");
    }
  }

  /** The checks let a report through exactly when it holds that evidence. */
  lemma UsableExactly(b: Baseline, r: Report)
    ensures Usable(b, r) <==> Evidence(b, r)
  {
    hide CoverageMet, Measured;
    CoverageExactly(b.committed, r);
  }

  // ----- The loops of the gate -----

  datatype Tally = Tally(actual: map<string, nat>, matchCounts: seq<nat>, overlapping: nat, ignored: nat)

  function Matched(issue: Json, policies: seq<Policy>): (r: seq<nat>)
    ensures |r| == Count(policies, Hitting(issue))
    ensures forall k | 0 <= k < |r| :: r[k] < |policies|
    ensures forall i, j | 0 <= i < j < |r| :: r[i] < r[j]
  {
    if policies == [] then []
    else
      var m := |policies| - 1;
      Matched(issue, policies[..m]) + if IsNoise(issue, policies[m]) then [m] else []
  }

  lemma {:induction false} MatchedIs(issue: Json, policies: seq<Policy>, i: nat)
    requires i < |policies|
    ensures i in Matched(issue, policies) <==> IsNoise(issue, policies[i])
    decreases |policies|
  {
    hide IsNoise, Matched, Count;
    var m := |policies| - 1;
    MatchedSnoc(issue, policies);
    if i < m {
      MatchedIs(issue, policies[..m], i);
      assert policies[..m][i] == policies[i];
    }
  }

  lemma MatchedSnoc(issue: Json, policies: seq<Policy>)
    requires policies != []
    ensures var m := |policies| - 1;
            && Matched(issue, policies)
               == Matched(issue, policies[..m]) + (if IsNoise(issue, policies[m]) then [m] else [])
            && m !in Matched(issue, policies[..m])
  {
    hide IsNoise, Count;
  }

  ghost predicate Tallied(t: Tally, issues: seq<Json>, policies: seq<Policy>) {
    && |t.matchCounts| == |policies|
    && (forall i | 0 <= i < |policies| :: t.matchCounts[i] == Count(issues, NoiseOf(policies[i])))
    && t.overlapping == Count(issues, Overlaps(policies))
    && t.ignored == Count(issues, Ignored(policies))
    && (forall rule :: CountOf(t.actual, rule) == Count(issues, Actionable(policies, rule)))
    && (forall rule | rule in t.actual :: t.actual[rule] > 0)
    && t.ignored + Total(t.actual) == |issues|
  }

  method Bump(counts: seq<nat>, matched: seq<nat>) returns (r: seq<nat>)
    requires forall k | 0 <= k < |matched| :: matched[k] < |counts|
    requires forall i, j | 0 <= i < j < |matched| :: matched[i] != matched[j]
    ensures |r| == |counts| && forall i | 0 <= i < |r| :: r[i] == counts[i] + if i in matched then 1 else 0
  {
    r := counts;
    for k := 0 to |matched|
      invariant |r| == |counts| && forall i | 0 <= i < |r| :: r[i] == counts[i] + if i in matched[..k] then 1 else 0
    {
      assert matched[..k + 1] == matched[..k] + [matched[k]];
      assert matched[k] !in matched[..k];
      r := r[matched[k] := r[matched[k]] + 1];
    }
    assert matched[..|matched|] == matched;
  }

  /** One finding's effect on the whole tally. */
  lemma TalliedStep(t: Tally, t': Tally, issues: seq<Json>, issue: Json, policies: seq<Policy>)
    requires Tallied(t, issues, policies) && WellFormed(issue)
    requires |t'.matchCounts| == |policies|
    requires forall i | 0 <= i < |policies| ::
               t'.matchCounts[i] == t.matchCounts[i] + if IsNoise(issue, policies[i]) then 1 else 0
    requires t'.overlapping == t.overlapping + if Overlaps(policies)(issue) then 1 else 0
    requires t'.ignored == t.ignored + if Ignored(policies)(issue) then 1 else 0
    requires t'.actual == if Ignored(policies)(issue) then t.actual
                          else t.actual[RuleOf(issue) := CountOf(t.actual, RuleOf(issue)) + 1]
    ensures Tallied(t', issues + [issue], policies)
  {
    hide IsNoise;
    var more := issues + [issue];
    forall i | 0 <= i < |policies| ensures t'.matchCounts[i] == Count(more, NoiseOf(policies[i])) {
      CountSnoc(issues, issue, NoiseOf(policies[i]));
    }
    TotalPut(t.actual, RuleOf(issue), CountOf(t.actual, RuleOf(issue)) + 1);
    CountSnoc(issues, issue, Overlaps(policies));
    CountSnoc(issues, issue, Ignored(policies));
    forall rule ensures CountOf(t'.actual, rule) == Count(more, Actionable(policies, rule)) {
      CountSnoc(issues, issue, Actionable(policies, rule));
    }
  }

  lemma MatchedIsIgnored(issue: Json, policies: seq<Policy>)
    ensures Matched(issue, policies) != [] <==> Ignored(policies)(issue)
    ensures |Matched(issue, policies)| > 1 <==> Overlaps(policies)(issue)
  {
    hide IsNoise, Matched;
    var m := Matched(issue, policies);
    CountZero(policies, Hitting(issue));
  }

  method TallyOne(t: Tally, issue: Json, policies: seq<Policy>) returns (r: Tally)
    requires WellFormed(issue) && |t.matchCounts| == |policies|
    ensures |r.matchCounts| == |policies|
    ensures forall i | 0 <= i < |policies| ::
               r.matchCounts[i] == t.matchCounts[i] + if IsNoise(issue, policies[i]) then 1 else 0
    ensures r.overlapping == t.overlapping + if Overlaps(policies)(issue) then 1 else 0
    ensures r.ignored == t.ignored + if Ignored(policies)(issue) then 1 else 0
    ensures r.actual == if Ignored(policies)(issue) then t.actual
                        else t.actual[RuleOf(issue) := CountOf(t.actual, RuleOf(issue)) + 1]
  {
    hide IsNoise, Ignored, Overlaps, WellFormed, RuleOf, Matched, CountOf, Count;
    r := t;
    var matched := Matched(issue, policies);
    MatchedIsIgnored(issue, policies);
    forall i | 0 <= i < |policies| ensures i in matched <==> IsNoise(issue, policies[i]) {
      MatchedIs(issue, policies, i);
    }
    if |matched| > 1 {
      r := r.(overlapping := r.overlapping + 1);
    }
    if matched != [] {
      var counts := Bump(r.matchCounts, matched);
      r := r.(matchCounts := counts, ignored := r.ignored + 1);
    } else {
      var rule := RuleOf(issue);
      r := r.(actual := r.actual[rule := CountOf(r.actual, rule) + 1]);
    }
  }

  /** The issue loop; no tally when an issue is malformed. */
  method TallyIssues(issues: seq<Json>, policies: seq<Policy>) returns (r: Option<Tally>)
    ensures r.None? <==> exists issue <- issues :: !WellFormed(issue)
    ensures r.Some? ==> Tallied(r.value, issues, policies)
  {
    hide IsNoise, Tallied, Ignored, Overlaps, WellFormed;
    var t := Tally(map[], seq(|policies|, _ => 0), 0, 0);
    TalliedNone(t, policies);
    for n := 0 to |issues|
      invariant forall k | 0 <= k < n :: WellFormed(issues[k])
      invariant Tallied(t, issues[..n], policies) && |t.matchCounts| == |policies|
    {
      var issue := issues[n];
      if !WellFormed(issue) {
        return None;
      }
      ghost var before := t;
      t := TallyOne(t, issue, policies);
      TalliedStep(before, t, issues[..n], issue, policies);
      assert issues[..n + 1] == issues[..n] + [issue];
    }
    assert issues[..|issues|] == issues;
    return Some(t);
  }

  lemma TalliedNone(t: Tally, policies: seq<Policy>)
    requires t == Tally(map[], seq(|policies|, _ => 0), 0, 0)
    ensures Tallied(t, [], policies)
  {
  }

  /** `compare_counts`: no unbaselined name, no increase. */
  predicate CompareCounts(baseline: map<string, nat>, actual: map<string, nat>) {
    actual.Keys <= baseline.Keys && forall name | name in baseline :: CountOf(actual, name) <= baseline[name]
  }

  lemma TallyDecides(b: Baseline, t: Tally, issues: seq<Json>)
    requires Tallied(t, issues, b.policies)
    ensures Held(b, issues)
       <==> && (forall i | 0 <= i < |t.matchCounts| :: t.matchCounts[i] == 1)
            && t.overlapping == 0 && CompareCounts(b.counts, t.actual)
  {
    hide IsNoise, OfRule;
    CountZero(issues, Overlaps(b.policies));
    assert (forall p <- b.policies :: Count(issues, NoiseOf(p)) == 1) <==>
        forall i | 0 <= i < |t.matchCounts| :: t.matchCounts[i] == 1 by {
      forall i | 0 <= i < |t.matchCounts|
          ensures t.matchCounts[i] == Count(issues, NoiseOf(b.policies[i])) && b.policies[i] in b.policies {}
    }
    assert (forall rule :: Count(issues, Actionable(b.policies, rule)) <= CountOf(b.counts, rule)) <==>
        CompareCounts(b.counts, t.actual) by {
      RulesCompare(b.counts, t.actual);
      forall rule ensures CountOf(t.actual, rule) == Count(issues, Actionable(b.policies, rule)) {}
    }
  }

  lemma RulesCompare(baseline: map<string, nat>, actual: map<string, nat>)
    requires forall rule | rule in actual :: actual[rule] > 0
    ensures CompareCounts(baseline, actual) <==> forall rule :: CountOf(actual, rule) <= CountOf(baseline, rule)
  {
    if forall rule :: CountOf(actual, rule) <= CountOf(baseline, rule) {
      forall rule | rule in actual ensures rule in baseline {
        assert CountOf(actual, rule) <= CountOf(baseline, rule);
      }
      forall name | name in baseline ensures CountOf(actual, name) <= baseline[name] {
        assert CountOf(actual, name) <= CountOf(baseline, name);
      }
    }
  }

  /** The gate after agreement, as it runs on one report. */
  method Gate(b: Baseline, r: Report) returns (d: Decision)
    ensures d == Decide(b, r)
    ensures d == Refused <==> !Evidence(b, r)
  {
    UsableExactly(b, r);
    hide Evidence, Held, Tallied, IsNoise, CompareCounts;
    if !ScanClean(r) || !CoverageMet(b.committed, r) || !Get(r, ISSUES).List? {
      return Refused;
    }
    var issues := Get(r, ISSUES).items;
    var t := TallyIssues(issues, b.policies);
    if t.None? {
      return Refused;
    }
    var cardinalityFailed := false;
    for i := 0 to |t.value.matchCounts|
      invariant !cardinalityFailed <==> forall k | 0 <= k < i :: t.value.matchCounts[k] == 1
    {
      if t.value.matchCounts[i] != 1 {
        cardinalityFailed := true;
      }
    }
    if t.value.overlapping > 0 {
      cardinalityFailed := true;
    }
    var comparisonFailed := !CompareCounts(b.counts, t.value.actual);
    TallyDecides(b, t.value, issues);
    return Exit(if cardinalityFailed || comparisonFailed then 1 else 0);
  }

  // ----- Agreement lets the gate read one report only -----

  /** The kinds the later checks ask for and equality does not see. */
  predicate WellKinded(r: Report) {
    && ERRORS in r
    && (Get(r, STATS).Object? ==> Get(Get(r, STATS).fields, "files").Int? && Get(Get(r, STATS).fields, "lines").Int?)
  }

  lemma UsableIsWellKinded(b: Baseline, r: Report)
    requires Usable(b, r)
    ensures WellKinded(r)
  {
  }

  lemma ScanCleanAgrees(r1: Report, r2: Report)
    requires ERRORS in r1 && ERRORS in r2 && Equal(Get(r1, ERRORS), Get(r2, ERRORS))
    ensures ScanClean(r1) <==> ScanClean(r2)
  {
    var e1, e2 := r1[ERRORS], r2[ERRORS];
    if e1.Object? && e2.Object? {
      forall name | name in e1.fields ensures e1.fields[name] == List([]) <==> e2.fields[name] == List([]) {
        assert Equal(e1.fields[name], e2.fields[name]);
      }
    }
  }

  lemma GetAgrees(o1: map<string, Json>, o2: map<string, Json>, key: string)
    requires Equal(Object(o1), Object(o2))
    ensures Equal(Get(o1, key), Get(o2, key))
    ensures Get(o1, key).Int? && Get(o2, key).Int? ==> Get(o1, key) == Get(o2, key)
  {
    EqualReflexive(Null);
    if key in o1 {
      assert Equal(Object(o1).fields[key], Object(o2).fields[key]);
    }
  }

  lemma CoverageAgrees(committed: map<string, Json>, r1: Report, r2: Report)
    requires Equal(Get(r1, STATS), Get(r2, STATS)) && WellKinded(r1) && WellKinded(r2)
    ensures CoverageMet(committed, r1) <==> CoverageMet(committed, r2)
  {
    var s1, s2 := Get(r1, STATS), Get(r2, STATS);
    if s1.Object? && s2.Object? {
      GetAgrees(s1.fields, s2.fields, "files");
      GetAgrees(s1.fields, s2.fields, "lines");
    }
  }

  lemma HeldForgetsOrder(b: Baseline, i1: seq<Json>, i2: seq<Json>)
    requires multiset(i1) == multiset(i2)
    ensures Held(b, i1) ==> Held(b, i2)
    ensures (forall issue <- i1 :: WellFormed(issue)) ==> (forall issue <- i2 :: WellFormed(issue))
  {
    hide IsNoise, WellFormed, Actionable, NoiseOf, Hitting;
    forall issue <- i2 ensures issue in i1 {
      Sorting.SameMembers(i1, i2, issue);
    }
    forall p <- b.policies ensures Count(i1, NoiseOf(p)) == Count(i2, NoiseOf(p)) {
      CountForgetsOrder(i1, i2, NoiseOf(p));
    }
    forall rule ensures Count(i1, Actionable(b.policies, rule)) == Count(i2, Actionable(b.policies, rule)) {
      CountForgetsOrder(i1, i2, Actionable(b.policies, rule));
    }
  }

  lemma IssuesDecide(b: Baseline, r1: Report, r2: Report)
    requires SameIssues(r1, r2) && WellKinded(r1) && WellKinded(r2)
    requires ScanClean(r1) == ScanClean(r2) && CoverageMet(b.committed, r1) == CoverageMet(b.committed, r2)
    ensures Decide(b, r1) == Decide(b, r2)
  {
    hide Held, ScanClean, CoverageMet, WellFormed, IsNoise, WellKinded;
    var i1, i2 := Get(r1, ISSUES), Get(r2, ISSUES);
    if i1.List? && i2.List? {
      HeldForgetsOrder(b, i1.items, i2.items);
      HeldForgetsOrder(b, i2.items, i1.items);
    }
  }

  /** Two reports that agree get the same decision exactly when both have the kinds the
      later checks ask for, or neither would get past them anyway. */
  lemma AgreementTransfers(b: Baseline, r1: Report, r2: Report, dumps: Json -> string)
    requires Faithful(dumps, Serialized(r1, r2)) && Agree(r1, r2, dumps)
    ensures WellKinded(r1) && WellKinded(r2) ==> Decide(b, r1) == Decide(b, r2)
    ensures Decide(b, r1) != Refused ==> (Decide(b, r2) == Decide(b, r1) <==> WellKinded(r2))
    ensures Decide(b, r2) != Refused ==> (Decide(b, r2) == Decide(b, r1) <==> WellKinded(r1))
  {
    hide Held, ScanClean, CoverageMet, WellKinded, SameIssues, Equal, IssuesPrint, Faithful;
    AgreementIsMultiset(r1, r2, dumps);
    if Usable(b, r1) { UsableIsWellKinded(b, r1); }
    if Usable(b, r2) { UsableIsWellKinded(b, r2); }
    if WellKinded(r1) && WellKinded(r2) {
      KindedHaveErrors(r1);
      KindedHaveErrors(r2);
      ScanCleanAgrees(r1, r2);
      CoverageAgrees(b.committed, r1, r2);
      IssuesDecide(b, r1, r2);
    }
  }

  lemma KindedHaveErrors(r: Report)
    requires WellKinded(r)
    ensures ERRORS in r
  {
  }

  /** The same report with its number of files written as a float. */
  function WithFloatFiles(r: Report): Report
    requires Get(r, STATS).Object? && Get(Get(r, STATS).fields, "files").Int?
  {
    var stats := Get(r, STATS).fields;
    r[STATS := Object(stats["files" := Float(stats["files"].n as real)])]
  }

  /** Every report that gets through has a twin that agrees with it and is refused. */
  lemma AgreementIsBlindToKinds(b: Baseline, r: Report, dumps: Json -> string)
    requires Usable(b, r)
    ensures Agree(r, WithFloatFiles(r), dumps) && Decide(b, WithFloatFiles(r)) == Refused
  {
    hide Held, IsNoise, WellFormed;
    var r' := WithFloatFiles(r);
    var s, s' := Get(r, STATS).fields, Get(r', STATS).fields;
    forall k | k in s ensures Equal(s[k], s'[k]) {
      EqualReflexive(s[k]);
    }
    assert s.Keys == s'.Keys;
    EqualReflexive(Get(r, VERSION));
    EqualReflexive(Get(r, ERRORS));
  }

  // ----- What a pass means -----

  /** The exceptions and the excused findings, paired off: `site[i]` is the one finding
      exception `i` matches, and no finding is excused twice. */
  ghost predicate PairedOff(policies: seq<Policy>, issues: seq<Json>, site: seq<nat>) {
    && |site| == |policies|
    && (forall i | 0 <= i < |site| :: site[i] < |issues|)
    && (forall i, k | 0 <= i < k < |site| :: site[i] != site[k])
    && (forall i, j | 0 <= i < |policies| && 0 <= j < |issues| :: IsNoise(issues[j], policies[i]) <==> site[i] == j)
  }

  lemma {:induction false} Sites(policies: seq<Policy>, issues: seq<Json>, n: nat) returns (site: seq<nat>)
    requires n <= |policies| && forall p <- policies :: Count(issues, NoiseOf(p)) == 1
    ensures |site| == n && forall i | 0 <= i < n :: site[i] < |issues|
    ensures forall i, j | 0 <= i < n && 0 <= j < |issues| :: IsNoise(issues[j], policies[i]) <==> site[i] == j
  {
    hide IsNoise;
    if n == 0 {
      site := [];
    } else {
      site := Sites(policies, issues, n - 1);
      var k := CountOne(issues, NoiseOf(policies[n - 1]));
      forall j | 0 <= j < |issues| ensures IsNoise(issues[j], policies[n - 1]) <==> j == k {
        assert NoiseOf(policies[n - 1])(issues[j]) <==> j == k;
      }
      site := site + [k];
    }
  }

  /** Counting every exception once and every finding at most once is pairing them off. */
  lemma PairingOff(policies: seq<Policy>, issues: seq<Json>) returns (site: seq<nat>)
    requires forall p <- policies :: Count(issues, NoiseOf(p)) == 1
    requires forall issue <- issues :: Count(policies, Hitting(issue)) <= 1
    ensures PairedOff(policies, issues, site)
  {
    hide IsNoise;
    site := Sites(policies, issues, |policies|);
    forall i, k | 0 <= i < k < |site| ensures site[i] != site[k] {
      if site[i] == site[k] {
        var issue := issues[site[i]];
        assert issue in issues;
        CountTwo(policies, Hitting(issue), i, k);
      }
    }
  }

  lemma PairedOffCounts(policies: seq<Policy>, issues: seq<Json>, site: seq<nat>)
    requires PairedOff(policies, issues, site)
    ensures forall p <- policies :: Count(issues, NoiseOf(p)) == 1
    ensures forall issue <- issues :: Count(policies, Hitting(issue)) <= 1
  {
    hide IsNoise;
    forall i | 0 <= i < |policies| ensures Count(issues, NoiseOf(policies[i])) == 1 {
      CountOneIs(issues, NoiseOf(policies[i]), site[i]);
    }
    forall j | 0 <= j < |issues| ensures Count(policies, Hitting(issues[j])) <= 1 {
      CountAtMostOne(policies, Hitting(issues[j]));
    }
  }

  function Excuse(rule: string): (Json, Policy) -> bool {
    (issue, p) => IsNoise(issue, p) && p.ruleId == rule
  }

  function IgnoredOfRule(policies: seq<Policy>, rule: string): Json -> bool {
    issue => OfRule(rule)(issue) && Ignored(policies)(issue)
  }

  /** A finding's own row: the exceptions for a rule that excuse it. */
  lemma RowOfIssue(policies: seq<Policy>, issue: Json, rule: string)
    requires Count(policies, Hitting(issue)) <= 1
    ensures Count(policies, Row(Excuse(rule), issue)) == if IgnoredOfRule(policies, rule)(issue) then 1 else 0
  {
    var row := Row(Excuse(rule), issue);
    if OfRule(rule)(issue) {
      forall p <- policies ensures row(p) == Hitting(issue)(p) {
        if IsNoise(issue, p) { SameRule(issue, p, rule); }
      }
      CountSame(policies, row, Hitting(issue));
      CountZero(policies, Hitting(issue));
    } else {
      forall p <- policies ensures !row(p) {
        if IsNoise(issue, p) { SameRule(issue, p, rule); }
      }
      CountZero(policies, row);
    }
  }

  lemma SameRule(issue: Json, p: Policy, rule: string)
    requires IsNoise(issue, p)
    ensures OfRule(rule)(issue) <==> p.ruleId == rule
  {
    hide RelativePath, Within;
  }

  /** An exception's own column: the findings it excuses. */
  lemma ColumnOfPolicy(p: Policy, issues: seq<Json>, rule: string)
    requires Count(issues, NoiseOf(p)) == 1
    ensures Count(issues, Row(Flip(Excuse(rule)), p)) == if ForRule(rule)(p) then 1 else 0
  {
    hide IsNoise;
    var column := Row(Flip(Excuse(rule)), p);
    if p.ruleId == rule {
      CountSame(issues, column, NoiseOf(p));
    } else {
      CountZero(issues, column);
    }
  }

  /** For each rule there are as many excused findings as exceptions. */
  lemma NoiseBalances(policies: seq<Policy>, issues: seq<Json>, rule: string)
    requires forall p <- policies :: Count(issues, NoiseOf(p)) == 1
    requires forall issue <- issues :: Count(policies, Hitting(issue)) <= 1
    ensures Count(issues, IgnoredOfRule(policies, rule)) == Count(policies, ForRule(rule))
    ensures Count(issues, OfRule(rule)) == Count(issues, Actionable(policies, rule)) + Count(policies, ForRule(rule))
  {
    hide IsNoise, NoiseOf, Hitting, Excuse, Row, Flip;
    forall issue <- issues
      ensures Count(policies, Row(Excuse(rule), issue)) == if IgnoredOfRule(policies, rule)(issue) then 1 else 0
    {
      RowOfIssue(policies, issue, rule);
    }
    PairsCount(issues, policies, Excuse(rule), IgnoredOfRule(policies, rule));
    forall p <- policies ensures Count(issues, Row(Flip(Excuse(rule)), p)) == if ForRule(rule)(p) then 1 else 0 {
      ColumnOfPolicy(p, issues, rule);
    }
    PairsCount(policies, issues, Flip(Excuse(rule)), ForRule(rule));
    PairsBothWays(issues, policies, Excuse(rule));
    CountSplit(issues, OfRule(rule), Actionable(policies, rule), IgnoredOfRule(policies, rule));
  }

  /** For every rule, the findings are at most the baseline and one for each exception. */
  ghost predicate WithinBudget(b: Baseline, issues: seq<Json>) {
    forall rule :: Count(issues, OfRule(rule)) <= CountOf(b.counts, rule) + Count(b.policies, ForRule(rule))
  }

  lemma HeldBudget(b: Baseline, issues: seq<Json>)
    requires forall p <- b.policies :: Count(issues, NoiseOf(p)) == 1
    requires forall issue <- issues :: Count(b.policies, Hitting(issue)) <= 1
    ensures WithinBudget(b, issues) <==>
        forall rule :: Count(issues, Actionable(b.policies, rule)) <= CountOf(b.counts, rule)
  {
    hide NoiseOf, Hitting, OfRule, Actionable, ForRule;
    forall rule
      ensures Count(issues, OfRule(rule))
          == Count(issues, Actionable(b.policies, rule)) + Count(b.policies, ForRule(rule))
    {
      NoiseBalances(b.policies, issues, rule);
    }
  }

  /** The gate passes a usable report exactly when exceptions and excused findings pair off
      one to one and every rule is within its budget. */
  lemma PassMeans(b: Baseline, r: Report)
    requires Usable(b, r)
    ensures var issues := Get(r, ISSUES).items;
            Decide(b, r) == Exit(0) <==> (exists site :: PairedOff(b.policies, issues, site)) && WithinBudget(b, issues)
  {
    hide ScanClean, CoverageMet, WellFormed, WithinBudget, PairedOff, IsNoise, NoiseOf, Hitting, Actionable;
    var issues := Get(r, ISSUES).items;
    if Held(b, issues) {
      var site := PairingOff(b.policies, issues);
      HeldBudget(b, issues);
    }
    if site :| PairedOff(b.policies, issues, site) {
      PairedOffCounts(b.policies, issues, site);
      HeldBudget(b, issues);
    }
  }

  function Always(): Policy -> bool {
    _ => true
  }

  function Excuses(): (Json, Policy) -> bool {
    (issue, p) => IsNoise(issue, p)
  }

  /** The ignored findings of a passing report are as many as the exceptions, and with the
      actionable ones they are all the findings. */
  lemma PassConserves(b: Baseline, r: Report, t: Tally)
    requires Decide(b, r) == Exit(0) && Tallied(t, Get(r, ISSUES).items, b.policies)
    ensures t.ignored == |b.policies|
    ensures t.ignored + Total(t.actual) == |Get(r, ISSUES).items|
  {
    hide IsNoise, ScanClean, CoverageMet, WellFormed, Always;
    var issues := Get(r, ISSUES).items;
    forall issue <- issues
      ensures Count(b.policies, Row(Excuses(), issue)) == if Ignored(b.policies)(issue) then 1 else 0
    {
      CountSame(b.policies, Row(Excuses(), issue), Hitting(issue));
      CountZero(b.policies, Hitting(issue));
    }
    PairsCount(issues, b.policies, Excuses(), Ignored(b.policies));
    forall p <- b.policies ensures Count(issues, Row(Flip(Excuses()), p)) == if Always()(p) then 1 else 0 {
      CountSame(issues, Row(Flip(Excuses()), p), NoiseOf(p));
      AlwaysTrue(p);
    }
    PairsCount(b.policies, issues, Flip(Excuses()), Always());
    PairsBothWays(issues, b.policies, Excuses());
    AlwaysAll(b.policies);
  }

  lemma AlwaysTrue(p: Policy)
    ensures Always()(p)
  {
  }

  lemma {:induction false} AlwaysAll(policies: seq<Policy>)
    ensures Count(policies, Always()) == |policies|
    decreases |policies|
  {
    if policies != [] { AlwaysAll(policies[..|policies| - 1]); }
  }

  // ----- The command -----

  /** `gosec_command`: agreement of the two reports, then the gate on the first.  Exit 0 means
      that exceptions and excused findings of a usable, agreed report pair off and every rule
      is within its budget; a refusal that the reports disagree or the first lacks the evidence; and
      the second report, if it has the kinds the checks ask for, would have got the same. */
  method GosecCommand(b: Baseline, r1: Report, r2: Report, dumps: Json -> string) returns (d: Decision)
    ensures d == Refused <==> !Agree(r1, r2, dumps) || !Evidence(b, r1)
    ensures Faithful(dumps, Serialized(r1, r2)) ==> (d == Refused <==> !SameScan(r1, r2) || !Evidence(b, r1))
    ensures d != Refused ==> d == Exit(0) || d == Exit(1)
    ensures d != Refused ==>
      (d == Exit(0) <==>
         (exists site :: PairedOff(b.policies, Get(r1, ISSUES).items, site)) && WithinBudget(b, Get(r1, ISSUES).items))
    ensures d != Refused && Faithful(dumps, Serialized(r1, r2)) ==> (Decide(b, r2) == d <==> WellKinded(r2))
  {
    UsableExactly(b, r1);
    if Faithful(dumps, Serialized(r1, r2)) { AgreementExactly(r1, r2, dumps); }
    hide Agree, SameScan, Evidence, Usable, PairedOff, WithinBudget, Held, Faithful, WellKinded;
    if !Agree(r1, r2, dumps) {
      return Refused;
    }
    d := Gate(b, r1);
    if d != Refused {
      UsableIssues(b, r1);
      PassMeans(b, r1);
      if Faithful(dumps, Serialized(r1, r2)) { AgreementTransfers(b, r1, r2, dumps); }
    }
  }

  lemma UsableIssues(b: Baseline, r: Report)
    requires Usable(b, r)
    ensures Get(r, ISSUES).List?
  {
  }

  /** The demand on the serializer can be met for every pair of reports. */
  lemma {:induction false} SomeSerializer(values: set<Json>) returns (dumps: Json -> string)
    ensures Faithful(dumps, values) && forall x <- values :: |dumps(x)| < |values|
    decreases |values|
  {
    if values == {} {
      dumps := (x: Json) => "";
    } else {
      var v :| v in values;
      var rest := values - {v};
      var inner := SomeSerializer(rest);
      dumps := (x: Json) => if x == v then seq(|rest|, _ => 'x') else inner(x);
      assert forall x <- values :: x == v || x in rest;
    }
  }
}
