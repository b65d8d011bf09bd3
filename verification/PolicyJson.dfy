/**
 The check every policy document passes before it is decoded: exactly one JSON value, no
 null anywhere, no object with a repeated key, nothing nested deeper than 64.

 The check drives a streaming decoder.  The decoder is modelled on lexemes with the
 grammar states of Go's `json.Decoder`, so the result covers malformed input too.
 */
module PolicyJson {
  import opened Common

  const MAX_DEPTH := 64

  /** A `Scalar` is a boolean or a number the decoder can convert; a number outside the range
      of float64 is `Bad`, as is anything else that is no JSON lexeme. */
  datatype Lexeme =
    | LBrace | RBrace | LBracket | RBracket | Colon | Comma
    | Str(s: string)
    | Null
    | Scalar(text: string)
    | Bad

  // ----- The decoder -----

  datatype Grammar = Top | ArrayStart | ArrayValue | ArrayComma | ObjectStart | ObjectKey | ObjectColon | ObjectValue
      | ObjectComma

  datatype Dec = Dec(rest: seq<Lexeme>, stack: seq<Grammar>, st: Grammar)

  datatype Read = Got(token: Lexeme, dec: Dec) | Eof | Malformed

  predicate ValueAllowed(st: Grammar) {
    st == Top || st == ArrayStart || st == ArrayValue || st == ObjectValue
  }

  function ValueEnd(st: Grammar): Grammar {
    if st == ArrayStart || st == ArrayValue then ArrayComma else if st == ObjectValue then ObjectComma else st
  }

  function Pop(d: Dec): Dec
    requires d.rest != [] && d.stack != []
  {
    var last := |d.stack| - 1;
    Dec(d.rest[1..], d.stack[..last], ValueEnd(d.stack[last]))
  }

  /** A separator moves the grammar on without being a token. */
  function Separate(d: Dec): (r: Option<Dec>)
    requires d.rest != []
  {
    var tail := d.rest[1..];
    if d.rest[0] == Colon && d.st == ObjectColon then Some(d.(rest := tail, st := ObjectValue))
    else if d.rest[0] == Comma && d.st == ArrayComma then Some(d.(rest := tail, st := ArrayValue))
    else if d.rest[0] == Comma && d.st == ObjectComma then Some(d.(rest := tail, st := ObjectKey))
    else None
  }

  /** A token proper. */
  function Proper(d: Dec): (r: Read)
    requires d.rest != []
    ensures r.Got? ==> |r.dec.rest| < |d.rest| && r.token == d.rest[0]
  {
    var l, tail := d.rest[0], d.rest[1..];
    match l
    case LBracket => if ValueAllowed(d.st) then Got(l, Dec(tail, d.stack + [d.st], ArrayStart)) else Malformed
    case LBrace => if ValueAllowed(d.st) then Got(l, Dec(tail, d.stack + [d.st], ObjectStart)) else Malformed
    case RBracket =>
      if (d.st == ArrayStart || d.st == ArrayComma) && d.stack != [] then Got(l, Pop(d)) else Malformed
    case RBrace =>
      if (d.st == ObjectStart || d.st == ObjectComma) && d.stack != [] then Got(l, Pop(d)) else Malformed
    case Colon => Malformed
    case Comma => Malformed
    case Bad => Malformed
    case Str(_) =>
      if d.st == ObjectStart || d.st == ObjectKey then Got(l, d.(rest := tail, st := ObjectColon))
      else if ValueAllowed(d.st) then Got(l, d.(rest := tail, st := ValueEnd(d.st)))
      else Malformed
    case _ => if ValueAllowed(d.st) then Got(l, d.(rest := tail, st := ValueEnd(d.st))) else Malformed
  }

  /** `Decoder.Token`: separators are passed over, the next token is returned. */
  function Token(d: Dec): (r: Read)
    ensures r.Got? ==> |r.dec.rest| < |d.rest|
    decreases |d.rest|
  {
    if d.rest == [] then Eof
    else if Separate(d).Some? then Token(Separate(d).value)
    else Proper(d)
  }

  /** `Decoder.More`: the next lexeme is not a closing one. */
  predicate More(d: Dec) {
    d.rest != [] && d.rest[0] != RBracket && d.rest[0] != RBrace
  }

  // ----- The check, as a function of the decoder -----

  function Check(d: Dec, depth: nat): (r: Option<Dec>)
    ensures r.Some? ==> |r.value.rest| < |d.rest|
    decreases |d.rest|, 1
  {
    if depth > MAX_DEPTH then None
    else
      match Token(d)
      case Got(LBrace, d1) => CheckMembers(d1, {}, depth)
      case Got(LBracket, d1) => CheckElements(d1, depth)
      case Got(Str(_), d1) => Some(d1)
      case Got(Scalar(_), d1) => Some(d1)
      case _ => None
  }

  function CheckMembers(d: Dec, seen: set<string>, depth: nat): (r: Option<Dec>)
    ensures r.Some? ==> |r.value.rest| < |d.rest|
    decreases |d.rest|, 0
  {
    if More(d) then
      match Token(d)
      case Got(Str(name), d1) =>
        if name in seen then None
        else
          var r := Check(d1, depth + 1);
          if r.None? then None else CheckMembers(r.value, seen + {name}, depth)
      case _ => None
    else
      match Token(d) case Got(_, d1) => Some(d1) case _ => None
  }

  function CheckElements(d: Dec, depth: nat): (r: Option<Dec>)
    ensures r.Some? ==> |r.value.rest| < |d.rest|
    decreases |d.rest|, 2
  {
    if More(d) then
      var r := Check(d, depth + 1);
      if r.None? then None else CheckElements(r.value, depth)
    else
      match Token(d) case Got(_, d1) => Some(d1) case _ => None
  }

  // ----- The decoder and the check as they run -----

  class Decoder {
    var rest: seq<Lexeme>
    var stack: seq<Grammar>
    var st: Grammar

    ghost function View(): Dec reads this {
      Dec(rest, stack, st)
    }

    constructor (lexemes: seq<Lexeme>)
      ensures View() == Dec(lexemes, [], Top)
    {
      rest, stack, st := lexemes, [], Top;
    }

    method NextToken() returns (r: Read)
      modifies this
      ensures r == Token(old(View()))
      ensures r.Got? ==> View() == r.dec
    {
      ghost var d0 := View();
      while rest != [] && Separate(Dec(rest, stack, st)).Some?
        invariant Token(View()) == Token(d0)
        decreases |rest|
      {
        var d := Separate(Dec(rest, stack, st)).value;
        rest, st := d.rest, d.st;
      }
      if rest == [] {
        return Eof;
      }
      r := Proper(Dec(rest, stack, st));
      if r.Got? {
        rest, stack, st := r.dec.rest, r.dec.stack, r.dec.st;
      }
    }

    method HasMore() returns (b: bool)
      ensures b == More(View())
    {
      b := rest != [] && rest[0] != RBracket && rest[0] != RBrace;
    }
  }

  /** `checkObject`. */
  method CheckObject(dec: Decoder, depth: nat) returns (ok: bool)
    modifies dec
    ensures ok == Check(old(dec.View()), depth).Some?
    ensures ok ==> dec.View() == Check(old(dec.View()), depth).value
    decreases |dec.rest|
  {
    if depth > MAX_DEPTH {
      return false;
    }
    var t := dec.NextToken();
    if !t.Got? {
      return false;
    }
    match t.token {
      case LBrace =>
        ghost var d1 := dec.View();
        var seen: set<string> := {};
        var more := dec.HasMore();
        while more
          invariant more == More(dec.View())
          invariant |dec.rest| <= |d1.rest|
          invariant CheckMembers(d1, {}, depth) == CheckMembers(dec.View(), seen, depth)
          decreases |dec.rest|
        {
          var key := dec.NextToken();
          if !key.Got? || !key.token.Str? || key.token.s in seen {
            return false;
          }
          seen := seen + {key.token.s};
          var child := CheckObject(dec, depth + 1);
          if !child {
            return false;
          }
          more := dec.HasMore();
        }
        t := dec.NextToken();
        return t.Got?;
      case LBracket =>
        ghost var d1 := dec.View();
        var more := dec.HasMore();
        while more
          invariant more == More(dec.View())
          invariant |dec.rest| <= |d1.rest|
          invariant CheckElements(d1, depth) == CheckElements(dec.View(), depth)
          decreases |dec.rest|
        {
          var child := CheckObject(dec, depth + 1);
          if !child {
            return false;
          }
          more := dec.HasMore();
        }
        t := dec.NextToken();
        return t.Got?;
      case Str(_) => return true;
      case Scalar(_) => return true;
      case _ => return false;
    }
  }

  /** The gate in front of `decode`: one checked value and then the end of the input. */
  method CheckDocument(lexemes: seq<Lexeme>) returns (ok: bool)
    ensures ok == Accepts(lexemes)
  {
    var dec := new Decoder(lexemes);
    var valid := CheckObject(dec, 0);
    if !valid {
      return false;
    }
    var t := dec.NextToken();
    return t.Eof?;
  }

  predicate Accepts(lexemes: seq<Lexeme>) {
    var r := Check(Dec(lexemes, [], Top), 0);
    r.Some? && Token(r.value) == Eof
  }

  // ----- JSON values -----

  datatype Value =
    | VNull
    | VStr(s: string)
    | VScalar(text: string)
    | VObject(members: Members)
    | VArray(elements: Elements)

  datatype Members = NoMember | Member(key: string, value: Value, others: Members)

  datatype Elements = NoElement | Element(value: Value, others: Elements)

  /** The lexemes of a value; `first` tells whether a comma must come before a member. */
  function Lex(v: Value): seq<Lexeme> {
    match v
    case VNull => [Null]
    case VStr(s) => [Str(s)]
    case VScalar(t) => [Scalar(t)]
    case VObject(ms) => [LBrace] + LexMembers(ms, true) + [RBrace]
    case VArray(es) => [LBracket] + LexElements(es, true) + [RBracket]
  }

  function LexMembers(ms: Members, first: bool): seq<Lexeme> {
    match ms
    case NoMember => []
    case Member(k, v, others) =>
      (if first then [] else [Comma]) + [Str(k), Colon] + Lex(v) + LexMembers(others, false)
  }

  function LexElements(es: Elements, first: bool): seq<Lexeme> {
    match es
    case NoElement => []
    case Element(v, others) => (if first then [] else [Comma]) + Lex(v) + LexElements(others, false)
  }

  predicate NoNull(v: Value) {
    match v
    case VNull => false
    case VObject(ms) => NoNullMembers(ms)
    case VArray(es) => NoNullElements(es)
    case _ => true
  }

  predicate NoNullMembers(ms: Members) {
    ms.Member? ==> NoNull(ms.value) && NoNullMembers(ms.others)
  }

  predicate NoNullElements(es: Elements) {
    es.Element? ==> NoNull(es.value) && NoNullElements(es.others)
  }

  function Keys(ms: Members): seq<string> {
    if ms.NoMember? then [] else [ms.key] + Keys(ms.others)
  }

  ghost predicate UniqueKeys(v: Value) {
    match v
    case VObject(ms) => Distinct(Keys(ms)) && UniqueMembers(ms)
    case VArray(es) => UniqueElements(es)
    case _ => true
  }

  ghost predicate UniqueMembers(ms: Members) {
    ms.Member? ==> UniqueKeys(ms.value) && UniqueMembers(ms.others)
  }

  ghost predicate UniqueElements(es: Elements) {
    es.Element? ==> UniqueKeys(es.value) && UniqueElements(es.others)
  }

  function Max(a: nat, b: nat): nat {
    if a < b then b else a
  }

  /** How far below a value its deepest node lies. */
  function Height(v: Value): nat {
    match v
    case VObject(ms) => MembersHeight(ms)
    case VArray(es) => ElementsHeight(es)
    case _ => 0
  }

  function MembersHeight(ms: Members): nat {
    if ms.NoMember? then 0 else Max(1 + Height(ms.value), MembersHeight(ms.others))
  }

  function ElementsHeight(es: Elements): nat {
    if es.NoElement? then 0 else Max(1 + Height(es.value), ElementsHeight(es.others))
  }

  /** What the policy loader demands of a document's value. */
  ghost predicate Clear(v: Value, depth: nat) {
    NoNull(v) && UniqueKeys(v) && depth + Height(v) <= MAX_DEPTH
  }

  ghost predicate ClearMembers(ms: Members, seen: set<string>, depth: nat) {
    && NoNullMembers(ms) && UniqueMembers(ms) && (ms.Member? ==> depth + MembersHeight(ms) <= MAX_DEPTH)
    && Distinct(Keys(ms)) && forall k <- Keys(ms) :: k !in seen
  }

  ghost predicate ClearElements(es: Elements, depth: nat) {
    NoNullElements(es) && UniqueElements(es) && (es.Element? ==> depth + ElementsHeight(es) <= MAX_DEPTH)
  }

  lemma ClearMember(ms: Members, seen: set<string>, depth: nat)
    requires ms.Member?
    ensures ClearMembers(ms, seen, depth)
       <==> ms.key !in seen && Clear(ms.value, depth + 1) && ClearMembers(ms.others, seen + {ms.key}, depth)
  {
    var ks, rest := Keys(ms), Keys(ms.others);
    assert ks == [ms.key] + rest;
    assert Distinct(ks) <==> Distinct(rest) && ms.key !in rest by {
      if Distinct(ks) {
        forall i, j | 0 <= i < j < |rest| ensures rest[i] != rest[j] { assert ks[i + 1] != ks[j + 1]; }
        forall i | 0 <= i < |rest| ensures rest[i] != ms.key { assert ks[0] != ks[i + 1]; }
      }
    }
    assert (forall k <- ks :: k !in seen) <==> ms.key !in seen && forall k <- rest :: k !in seen by {
      assert ks[0] == ms.key;
      assert forall k <- rest :: k in ks;
    }
    NoKeyNoHeight(ms.others);
  }

  lemma NoKeyNoHeight(ms: Members)
    ensures ms.NoMember? ==> MembersHeight(ms) == 0 && Keys(ms) == []
  {
  }

  // ----- The check accepts exactly the clear values -----

  /** Where a value may come next, the separator still due, and the state behind it. */
  predicate ValueNext(st: Grammar) {
    st == Top || st == ArrayStart || st == ArrayComma || st == ObjectColon
  }

  function Due(st: Grammar): seq<Lexeme> {
    if st == ArrayComma then [Comma] else if st == ObjectColon then [Colon] else []
  }

  function Behind(st: Grammar): Grammar {
    if st == Top then Top else if st == ObjectColon then ObjectComma else ArrayComma
  }

  /** The state in which the value itself is read, once the separator is gone. */
  function Reading(st: Grammar): Grammar {
    if st == ArrayComma then ArrayValue else if st == ObjectColon then ObjectValue else st
  }

  lemma TokenDue(st: Grammar, stack: seq<Grammar>, rest: seq<Lexeme>)
    requires ValueNext(st) && rest != [] && rest[0] != Comma && rest[0] != Colon
    ensures Token(Dec(Due(st) + rest, stack, st)) == Proper(Dec(rest, stack, Reading(st)))
    ensures ValueAllowed(Reading(st)) && ValueEnd(Reading(st)) == Behind(st)
  {
    if Due(st) == [] {
      assert Due(st) + rest == rest;
    } else {
      assert (Due(st) + rest)[1..] == rest;
    }
  }

  function Close(stack: seq<Grammar>, rest: seq<Lexeme>): Dec
    requires stack != []
  {
    Dec(rest, stack[..|stack| - 1], ValueEnd(stack[|stack| - 1]))
  }

  function MembersState(first: bool): Grammar {
    if first then ObjectStart else ObjectComma
  }

  function ElementsState(first: bool): Grammar {
    if first then ArrayStart else ArrayComma
  }

  lemma CheckTooDeep(d: Dec, depth: nat)
    requires depth > MAX_DEPTH
    ensures Check(d, depth) == None
  {
  }

  lemma CheckIs(d: Dec, depth: nat)
    requires depth <= MAX_DEPTH && Token(d).Got?
    ensures var t, d1 := Token(d).token, Token(d).dec;
            && (t == LBrace ==> Check(d, depth) == CheckMembers(d1, {}, depth))
            && (t == LBracket ==> Check(d, depth) == CheckElements(d1, depth))
            && (t.Str? || t.Scalar? ==> Check(d, depth) == Some(d1))
            && (Check(d, depth).Some? ==> t == LBrace || t == LBracket || t.Str? || t.Scalar?)
  {
  }

  lemma ProperIs(l: Lexeme, tail: seq<Lexeme>, stack: seq<Grammar>, st: Grammar)
    requires ValueAllowed(st)
    ensures var r := Proper(Dec([l] + tail, stack, st));
            && (l == LBrace ==> r == Got(l, Dec(tail, stack + [st], ObjectStart)))
            && (l == LBracket ==> r == Got(l, Dec(tail, stack + [st], ArrayStart)))
            && (l.Scalar? || l == Null ==> r == Got(l, Dec(tail, stack, ValueEnd(st))))
            && (l.Str? && st != ObjectStart ==> r == Got(l, Dec(tail, stack, ValueEnd(st))))
  {
    hide Pop, Separate, ValueEnd;
    assert ([l] + tail)[1..] == tail;
  }

  lemma ObjectLexemes(ms: Members, rest: seq<Lexeme>)
    ensures Lex(VObject(ms)) + rest == [LBrace] + (LexMembers(ms, true) + [RBrace] + rest)
  {
  }

  lemma ArrayLexemes(es: Elements, rest: seq<Lexeme>)
    ensures Lex(VArray(es)) + rest == [LBracket] + (LexElements(es, true) + [RBracket] + rest)
  {
  }

  lemma LeafLexemes(v: Value)
    requires !v.VObject? && !v.VArray?
    ensures Lex(v) == [if v.VNull? then Null else if v.VStr? then Str(v.s) else Scalar(v.text)]
  {
  }

  lemma ClearObject(ms: Members, depth: nat)
    requires depth <= MAX_DEPTH
    ensures Clear(VObject(ms), depth) <==> ClearMembers(ms, {}, depth)
  {
    NoKeyNoHeight(ms);
  }

  lemma ClearArray(es: Elements, depth: nat)
    requires depth <= MAX_DEPTH
    ensures Clear(VArray(es), depth) <==> ClearElements(es, depth)
  {
  }

  lemma ClearLeaf(v: Value, depth: nat)
    ensures depth > MAX_DEPTH ==> !Clear(v, depth)
    ensures v.VNull? ==> !Clear(v, depth)
    ensures (v.VStr? || v.VScalar?) && depth <= MAX_DEPTH ==> Clear(v, depth)
  {
  }

  /** Reading one value: the first token is the value's own, in the state behind its separator. */
  lemma FirstToken(l: Lexeme, tail: seq<Lexeme>, stack: seq<Grammar>, st: Grammar)
    requires ValueNext(st) && l != Comma && l != Colon
    ensures var r := Token(Dec(Due(st) + ([l] + tail), stack, st));
            && (l == LBrace ==> r == Got(l, Dec(tail, stack + [Reading(st)], ObjectStart)))
            && (l == LBracket ==> r == Got(l, Dec(tail, stack + [Reading(st)], ArrayStart)))
            && (l.Str? || l.Scalar? || l == Null ==> r == Got(l, Dec(tail, stack, Behind(st))))
  {
    hide Token, Proper, Due, Behind;
    var body := [l] + tail;
    assert body[0] == l;
    TokenDue(st, stack, body);
    ProperIs(l, tail, stack, Reading(st));
  }

  lemma CloseTop(stack: seq<Grammar>, st: Grammar, rest: seq<Lexeme>)
    requires ValueNext(st)
    ensures Close(stack + [Reading(st)], rest) == Dec(rest, stack, Behind(st))
  {
    assert (stack + [Reading(st)])[..|stack|] == stack;
  }

  /** Run on the lexemes of any value followed by anything, the check succeeds exactly on
      clear values, and then it has consumed exactly that value. */
  lemma {:induction false} CheckValue(v: Value, st: Grammar, stack: seq<Grammar>, rest: seq<Lexeme>, depth: nat)
    requires ValueNext(st)
    ensures Check(Dec(Due(st) + Lex(v) + rest, stack, st), depth)
         == if Clear(v, depth) then Some(Dec(rest, stack, Behind(st))) else None
    decreases v
  {
    hide Check, CheckMembers, CheckElements, Token, Clear, ClearMembers, ClearElements, Lex, LexMembers, LexElements,
         Due, Behind, Close, Reading, ValueNext;
    ClearLeaf(v, depth);
    assert Due(st) + Lex(v) + rest == Due(st) + (Lex(v) + rest);
    if depth <= MAX_DEPTH {
      CloseTop(stack, st, rest);
      var d := Dec(Due(st) + (Lex(v) + rest), stack, st);
      match v
      case VObject(ms) =>
        ObjectLexemes(ms, rest);
        FirstToken(LBrace, LexMembers(ms, true) + [RBrace] + rest, stack, st);
        CheckIs(d, depth);
        CheckMemberList(ms, true, {}, stack + [Reading(st)], rest, depth);
        ClearObject(ms, depth);
      case VArray(es) =>
        ArrayLexemes(es, rest);
        FirstToken(LBracket, LexElements(es, true) + [RBracket] + rest, stack, st);
        CheckIs(d, depth);
        CheckElementList(es, true, stack + [Reading(st)], rest, depth);
        ClearArray(es, depth);
      case _ =>
        LeafLexemes(v);
        FirstToken(Lex(v)[0], rest, stack, st);
        CheckIs(d, depth);
    } else {
      CheckTooDeep(Dec(Due(st) + Lex(v) + rest, stack, st), depth);
    }
  }

  lemma MembersStop(first: bool, seen: set<string>, stack: seq<Grammar>, rest: seq<Lexeme>, depth: nat)
    requires stack != []
    ensures CheckMembers(Dec(LexMembers(NoMember, first) + [RBrace] + rest, stack, MembersState(first)), seen, depth)
         == Some(Close(stack, rest))
  {
    hide Check;
    assert LexMembers(NoMember, first) + [RBrace] + rest == [RBrace] + rest;
    assert ([RBrace] + rest)[1..] == rest;
  }

  lemma MembersGoOn(d: Dec, name: string, seen: set<string>, depth: nat)
    requires More(d) && Token(d).Got? && Token(d).token == Str(name)
    ensures CheckMembers(d, seen, depth)
         == var r := Check(Token(d).dec, depth + 1);
            if name in seen || r.None? then None else CheckMembers(r.value, seen + {name}, depth)
  {
    hide Token, More, Check;
  }

  lemma MemberLexemes(ms: Members, first: bool, rest: seq<Lexeme>)
    requires ms.Member?
    ensures LexMembers(ms, first) + [RBrace] + rest
         == (if first then [] else [Comma])
            + ([Str(ms.key)] + (Due(ObjectColon) + Lex(ms.value) + (LexMembers(ms.others, false) + [RBrace] + rest)))
  {
    hide Lex;
  }

  lemma ClearNone(seen: set<string>, depth: nat)
    ensures ClearMembers(NoMember, seen, depth) && ClearElements(NoElement, depth)
  {
    NoKeyNoHeight(NoMember);
  }

  lemma {:induction false} CheckMemberList(ms: Members, first: bool, seen: set<string>, stack: seq<Grammar>,
                                           rest: seq<Lexeme>, depth: nat)
    requires stack != [] && depth <= MAX_DEPTH
    ensures CheckMembers(Dec(LexMembers(ms, first) + [RBrace] + rest, stack, MembersState(first)), seen, depth)
         == if ClearMembers(ms, seen, depth) then Some(Close(stack, rest)) else None
    decreases ms
  {
    hide Check, CheckMembers, CheckElements, Token, More, Clear, ClearMembers, ClearElements, Lex, LexMembers,
         LexElements, Due, Close, MAX_DEPTH;
    if ms.NoMember? {
      MembersStop(first, seen, stack, rest, depth);
      ClearNone(seen, depth);
    } else {
      var rest' := LexMembers(ms.others, false) + [RBrace] + rest;
      var tail := Due(ObjectColon) + Lex(ms.value) + rest';
      KeyToken(ms.key, first, stack, tail);
      MemberLexemes(ms, first, rest);
      MembersGoOn(Dec(LexMembers(ms, first) + [RBrace] + rest, stack, MembersState(first)), ms.key, seen, depth);
      CheckValue(ms.value, ObjectColon, stack, rest', depth + 1);
      CheckMemberList(ms.others, false, seen + {ms.key}, stack, rest, depth);
      ClearMember(ms, seen, depth);
    }
  }

  lemma KeyToken(k: string, first: bool, stack: seq<Grammar>, tail: seq<Lexeme>)
    ensures var d := Dec((if first then [] else [Comma]) + ([Str(k)] + tail), stack, MembersState(first));
            More(d) && Token(d) == Got(Str(k), Dec(tail, stack, ObjectColon))
  {
    var key := [Str(k)] + tail;
    assert key[1..] == tail;
    if first {
      assert [] + key == key;
    } else {
      assert ([Comma] + key)[1..] == key;
      assert Token(Dec(key, stack, ObjectKey)) == Got(Str(k), Dec(tail, stack, ObjectColon));
    }
  }

  lemma ElementsStop(first: bool, stack: seq<Grammar>, rest: seq<Lexeme>, depth: nat)
    requires stack != []
    ensures CheckElements(Dec(LexElements(NoElement, first) + [RBracket] + rest, stack, ElementsState(first)), depth)
         == Some(Close(stack, rest))
  {
    hide Check;
    assert LexElements(NoElement, first) + [RBracket] + rest == [RBracket] + rest;
    assert ([RBracket] + rest)[1..] == rest;
  }

  lemma ElementsGoOn(d: Dec, depth: nat)
    requires More(d)
    ensures CheckElements(d, depth)
         == var r := Check(d, depth + 1);
            if r.None? then None else CheckElements(r.value, depth)
  {
    hide Token, More, Check;
  }

  lemma ElementLexemes(es: Elements, first: bool, rest: seq<Lexeme>)
    requires es.Element?
    ensures LexElements(es, first) + [RBracket] + rest
         == Due(ElementsState(first)) + Lex(es.value) + (LexElements(es.others, false) + [RBracket] + rest)
  {
    hide Lex;
  }

  lemma ValueIsMore(st: Grammar, v: Value, rest: seq<Lexeme>, stack: seq<Grammar>)
    ensures More(Dec(Due(st) + Lex(v) + rest, stack, st))
  {
    assert Lex(v) != [] && Lex(v)[0] != RBracket && Lex(v)[0] != RBrace;
  }

  lemma ClearElement(es: Elements, depth: nat)
    requires es.Element?
    ensures ClearElements(es, depth) <==> Clear(es.value, depth + 1) && ClearElements(es.others, depth)
  {
    assert es.others.NoElement? ==> ElementsHeight(es.others) == 0;
  }

  lemma {:induction false} CheckElementList(es: Elements, first: bool, stack: seq<Grammar>, rest: seq<Lexeme>,
                                            depth: nat)
    requires stack != [] && depth <= MAX_DEPTH
    ensures CheckElements(Dec(LexElements(es, first) + [RBracket] + rest, stack, ElementsState(first)), depth)
         == if ClearElements(es, depth) then Some(Close(stack, rest)) else None
    decreases es
  {
    hide Check, CheckMembers, CheckElements, Token, More, Clear, ClearMembers, ClearElements, Lex, LexMembers,
         LexElements, Due, Close, MAX_DEPTH;
    if es.NoElement? {
      ElementsStop(first, stack, rest, depth);
      ClearNone({}, depth);
    } else {
      var rest' := LexElements(es.others, false) + [RBracket] + rest;
      var st := ElementsState(first);
      ElementLexemes(es, first, rest);
      ValueIsMore(st, es.value, rest', stack);
      ElementsGoOn(Dec(Due(st) + Lex(es.value) + rest', stack, st), depth);
      CheckValue(es.value, st, stack, rest', depth + 1);
      CheckElementList(es.others, false, stack, rest, depth);
      ClearElement(es, depth);
    }
  }

  // ----- And nothing else -----

  lemma TokenInverts(d: Dec) returns (tail: seq<Lexeme>)
    requires ValueNext(d.st) && Token(d).Got? && Token(d).token != RBracket && Token(d).token != RBrace
    ensures d.rest == Due(d.st) + ([Token(d).token] + tail)
    ensures Token(d).token != Comma && Token(d).token != Colon
  {
    if Due(d.st) == [] {
      tail := d.rest[1..];
      assert d.rest == [d.rest[0]] + tail;
    } else {
      var body := d.rest[1..];
      assert d.rest == [d.rest[0]] + body;
      assert Token(d) == Proper(Dec(body, d.stack, Reading(d.st)));
      tail := body[1..];
      assert body == [body[0]] + tail;
    }
  }

  lemma CheckReads(d: Dec, depth: nat)
    requires Check(d, depth).Some?
    ensures depth <= MAX_DEPTH && Token(d).Got?
    ensures var t := Token(d).token; t == LBrace || t == LBracket || t.Str? || t.Scalar?
  {
  }

  lemma ValueLexemes(due: seq<Lexeme>, v: Value, rest: seq<Lexeme>)
    ensures due + (Lex(v) + rest) == due + Lex(v) + rest
  {
  }

  /** Whatever the check consumed was the lexemes of a value. */
  lemma {:induction false} CheckSound(d: Dec, depth: nat) returns (v: Value)
    requires ValueNext(d.st) && Check(d, depth).Some?
    ensures var r := Check(d, depth).value;
            d.rest == Due(d.st) + Lex(v) + r.rest && r.stack == d.stack && r.st == Behind(d.st)
    decreases |d.rest|, 1
  {
    hide Check, CheckMembers, CheckElements, Token, Lex, LexMembers, LexElements, Due, Behind, Reading, ValueNext,
         Close, MAX_DEPTH;
    CheckReads(d, depth);
    var tail := TokenInverts(d);
    var l, d1 := Token(d).token, Token(d).dec;
    FirstToken(l, tail, d.stack, d.st);
    assert d == Dec(Due(d.st) + ([l] + tail), d.stack, d.st);
    CheckIs(d, depth);
    var r := Check(d, depth).value;
    CloseTop(d.stack, d.st, r.rest);
    if l == LBrace {
      var ms := MembersSound(d1, {}, depth);
      v := VObject(ms);
      ObjectLexemes(ms, r.rest);
    } else if l == LBracket {
      var es := ElementsSound(d1, depth);
      v := VArray(es);
      ArrayLexemes(es, r.rest);
    } else {
      v := if l.Str? then VStr(l.s) else VScalar(l.text);
      LeafLexemes(v);
    }
    ValueLexemes(Due(d.st), v, r.rest);
  }

  lemma MembersEnd(d: Dec, seen: set<string>, depth: nat)
    requires (d.st == ObjectStart || d.st == ObjectComma) && d.stack != [] && CheckMembers(d, seen, depth).Some?
    requires !More(d)
    ensures var r := CheckMembers(d, seen, depth).value;
            d.rest == LexMembers(NoMember, d.st == ObjectStart) + [RBrace] + r.rest && r == Close(d.stack, r.rest)
  {
    hide Check;
    var r := CheckMembers(d, seen, depth).value;
    assert d.rest == [d.rest[0]] + d.rest[1..];
    assert LexMembers(NoMember, d.st == ObjectStart) + [RBrace] + r.rest == [RBrace] + r.rest;
  }

  lemma MembersRead(d: Dec, seen: set<string>, depth: nat)
    requires CheckMembers(d, seen, depth).Some? && More(d)
    ensures Token(d).Got? && Token(d).token.Str? && Token(d).token.s !in seen && Check(Token(d).dec, depth + 1).Some?
    ensures CheckMembers(d, seen, depth)
        == CheckMembers(Check(Token(d).dec, depth + 1).value, seen + {Token(d).token.s}, depth)
  {
    hide Check, Token, More;
  }

  lemma {:induction false} MembersSound(d: Dec, seen: set<string>, depth: nat) returns (ms: Members)
    requires (d.st == ObjectStart || d.st == ObjectComma) && d.stack != [] && CheckMembers(d, seen, depth).Some?
    ensures var r := CheckMembers(d, seen, depth).value;
            d.rest == LexMembers(ms, d.st == ObjectStart) + [RBrace] + r.rest && r == Close(d.stack, r.rest)
    decreases |d.rest|, 0
  {
    hide Check, CheckMembers, CheckElements, Token, More, Lex, LexMembers, LexElements, Due, Close, MAX_DEPTH;
    var r := CheckMembers(d, seen, depth).value;
    if !More(d) {
      ms := NoMember;
      MembersEnd(d, seen, depth);
    } else {
      MembersRead(d, seen, depth);
      var k, d1 := Token(d).token.s, Token(d).dec;
      KeyInverts(d);
      var d2 := Check(d1, depth + 1).value;
      var v := CheckSound(d1, depth + 1);
      var others := MembersSound(d2, seen + {k}, depth);
      ms := Member(k, v, others);
      MemberLexemes(ms, d.st == ObjectStart, r.rest);
    }
  }

  lemma KeyInverts(d: Dec)
    requires (d.st == ObjectStart || d.st == ObjectComma) && More(d) && Token(d).Got? && Token(d).token.Str?
    ensures Token(d).dec == Dec(Token(d).dec.rest, d.stack, ObjectColon)
    ensures d.rest == (if d.st == ObjectStart then [] else [Comma]) + ([Token(d).token] + Token(d).dec.rest)
  {
    var tail := d.rest[1..];
    assert d.rest == [d.rest[0]] + tail;
    if d.st == ObjectComma {
      assert tail != [] && tail == [tail[0]] + tail[1..];
    }
  }

  lemma ElementsEnd(d: Dec, depth: nat)
    requires (d.st == ArrayStart || d.st == ArrayComma) && d.stack != [] && CheckElements(d, depth).Some? && !More(d)
    ensures var r := CheckElements(d, depth).value;
            d.rest == LexElements(NoElement, d.st == ArrayStart) + [RBracket] + r.rest && r == Close(d.stack, r.rest)
  {
    hide Check;
    var r := CheckElements(d, depth).value;
    assert d.rest == [d.rest[0]] + d.rest[1..];
    assert LexElements(NoElement, d.st == ArrayStart) + [RBracket] + r.rest == [RBracket] + r.rest;
  }

  lemma {:induction false} ElementsSound(d: Dec, depth: nat) returns (es: Elements)
    requires (d.st == ArrayStart || d.st == ArrayComma) && d.stack != [] && CheckElements(d, depth).Some?
    ensures var r := CheckElements(d, depth).value;
            d.rest == LexElements(es, d.st == ArrayStart) + [RBracket] + r.rest && r == Close(d.stack, r.rest)
    decreases |d.rest|, 2
  {
    hide Check, CheckMembers, CheckElements, Token, More, Lex, LexMembers, LexElements, Due, Close, MAX_DEPTH;
    var r := CheckElements(d, depth).value;
    if !More(d) {
      es := NoElement;
      ElementsEnd(d, depth);
    } else {
      ElementsGoOn(d, depth);
      var d2 := Check(d, depth + 1).value;
      var v := CheckSound(d, depth + 1);
      var others := ElementsSound(d2, depth);
      es := Element(v, others);
      ElementLexemes(es, d.st == ArrayStart, r.rest);
    }
  }

  /** The gate lets through exactly the inputs that are one clear JSON value. */
  lemma AcceptsExactly(lexemes: seq<Lexeme>)
    ensures Accepts(lexemes) <==> exists v :: lexemes == Lex(v) && Clear(v, 0)
  {
    if Accepts(lexemes) {
      var d := Dec(lexemes, [], Top);
      var r := Check(d, 0).value;
      var v := CheckSound(d, 0);
      EofIsEnd(r);
      assert Due(Top) + Lex(v) + [] == Lex(v);
      CheckValue(v, Top, [], [], 0);
    }
    if exists v :: lexemes == Lex(v) && Clear(v, 0) {
      var v :| lexemes == Lex(v) && Clear(v, 0);
      assert Due(Top) + Lex(v) + [] == lexemes;
      CheckValue(v, Top, [], [], 0);
    }
  }

  /** Keys are told apart as strings: two that differ in case only are not repeated here, though
      the decoder behind the gate takes them for the same field. */
  lemma CaseTwinsPass(first: string, second: string, a: string, b: string)
    requires first != second
    ensures Accepts(Lex(VObject(Member(first, VScalar(a), Member(second, VScalar(b), NoMember)))))
  {
    hide Accepts, Lex, MAX_DEPTH;
    var last := Member(second, VScalar(b), NoMember);
    var ms := Member(first, VScalar(a), last);
    ShallowIsClear();
    ClearMember(last, {first}, 0);
    ClearMember(ms, {}, 0);
    ClearNone({first, second}, 0);
    assert {first} + {second} == {first, second} && {} + {first} == {first};
    ClearLeaf(VScalar(a), 1);
    ClearLeaf(VScalar(b), 1);
    ClearObject(ms, 0);
    AcceptsExactly(Lex(VObject(ms)));
  }

  lemma ShallowIsClear()
    ensures 1 <= MAX_DEPTH
  {
  }

  lemma EofIsEnd(d: Dec)
    requires d.st == Top && Token(d) == Eof
    ensures d.rest == []
  {
  }
}
