/**
 Keyset pages over rows whose (created, id) key never changes, and the client that
 follows cursors to the end while other requests insert, archive and remove rows.
 */
module Pagination {
  import opened Common
  import opened Order
  import opened Cursor

  datatype Key = Key(created: string, id: string)

  predicate Below(a: Key, b: Key) {
    Less(a.created, b.created) || (a.created == b.created && Less(a.id, b.id))
  }

  predicate Before(k: Key, cursor: Option<Key>) {
    cursor.None? || Below(k, cursor.value)
  }

  /** Created earlier, or at the same time with the smaller id, as strings compare. */
  ghost predicate Older(a: Key, b: Key) {
    || (exists n :: FirstDiffer(a.created, b.created, n))
    || (a.created == b.created && exists n :: FirstDiffer(a.id, b.id, n))
  }

  lemma OlderIsBelow(a: Key, b: Key)
    ensures Older(a, b) <==> Below(a, b)
  {
    LessExactly(a.created, b.created);
    LessExactly(a.id, b.id);
  }

  ghost predicate Descending(s: seq<Key>) {
    forall i, j | 0 <= i < j < |s| :: Below(s[j], s[i])
  }

  lemma BelowOrder(a: Key, b: Key, c: Key)
    ensures !Below(a, a)
    ensures Below(a, b) && Below(b, c) ==> Below(a, c)
    ensures a == b || Below(a, b) || Below(b, a)
  {
    LessIrreflexive(a.created);
    LessIrreflexive(a.id);
    LessTotal(a.created, b.created);
    LessTotal(a.id, b.id);
    if Less(a.created, b.created) && Less(b.created, c.created) { LessTransitive(a.created, b.created, c.created); }
    if Less(a.id, b.id) && Less(b.id, c.id) { LessTransitive(a.id, b.id, c.id); }
  }

  // ----- The store -----

  datatype SessionRow = SessionRow(created: string, archived: bool)

  datatype MessageRow = MessageRow(session: string, created: string)

  ghost function SessionKeys(t: map<string, SessionRow>, includeArchived: bool): set<Key> {
    set id | id in t && (includeArchived || !t[id].archived) :: Key(t[id].created, id)
  }

  ghost function MessageKeys(t: map<string, MessageRow>, session: string): set<Key> {
    set id | id in t && t[id].session == session :: Key(t[id].created, id)
  }

  ghost predicate IsTop(c: set<Key>, m: Key) {
    m in c && forall k <- c :: k == m || Below(k, m)
  }

  lemma {:induction false} TopExists(c: set<Key>)
    requires c != {}
    ensures exists m :: IsTop(c, m)
  {
    var x :| x in c;
    if c == {x} {
      assert IsTop(c, x);
    } else {
      var c' := c - {x};
      TopExists(c');
      var m :| IsTop(c', m);
      BelowOrder(x, m, x);
      if Below(m, x) {
        forall k <- c ensures k == x || Below(k, x) { BelowOrder(k, m, x); }
        assert IsTop(c, x);
      } else {
        assert IsTop(c, m);
      }
    }
  }

  /** `ORDER BY created_at DESC, id DESC LIMIT n`. */
  ghost function Select(c: set<Key>, n: nat): (p: seq<Key>)
    decreases n
  {
    if n == 0 || c == {} then []
    else
      TopExists(c);
      var m :| IsTop(c, m);
      [m] + Select(c - {m}, n - 1)
  }

  ghost function After(rows: set<Key>, cursor: Option<Key>): set<Key> {
    set k | k in rows && Before(k, cursor)
  }

  /** The rows after the cursor, newest first. */
  ghost function Query(rows: set<Key>, cursor: Option<Key>, n: nat): seq<Key> {
    Select(After(rows, cursor), n)
  }

  /** `p` lists the newest `n` rows of `c`, newest first. */
  ghost predicate IsSelection(c: set<Key>, n: nat, p: seq<Key>) {
    && Descending(p) && |p| <= n
    && (forall k <- p :: k in c)
    && (forall k <- c | k !in p :: |p| == n && (n > 0 ==> Below(k, p[n - 1])))
  }

  lemma SelectionCons(c: set<Key>, n: nat, m: Key, p: seq<Key>)
    requires IsTop(c, m) && IsSelection(c - {m}, n, p)
    ensures IsSelection(c, n + 1, [m] + p)
  {
    var q := [m] + p;
    forall k <- p ensures Below(k, m) {
      assert k in c - {m};
    }
    forall k <- c | k !in q ensures |q| == n + 1 && Below(k, q[n]) {
      assert k in c - {m} && k !in p;
    }
  }

  lemma {:induction false} SelectPage(c: set<Key>, n: nat)
    ensures IsSelection(c, n, Select(c, n))
    decreases n
  {
    if n > 0 && c != {} {
      TopExists(c);
      var m :| IsTop(c, m) && Select(c, n) == [m] + Select(c - {m}, n - 1);
      SelectPage(c - {m}, n - 1);
      SelectionCons(c, n - 1, m, Select(c - {m}, n - 1));
    }
  }

  // ----- The two handlers -----

  datatype Page = Page(items: seq<Key>, next: Option<Key>)

  /** The session list: one row of lookahead, newest first, cursor on the last kept row. */
  ghost function ListPage(rows: set<Key>, cursor: Option<Key>, limit: nat): Page
    requires limit > 0
  {
    var views := Query(rows, cursor, limit + 1);
    if |views| > limit then Page(views[..limit], Some(views[limit - 1])) else Page(views, None)
  }

  function Reverse(s: seq<Key>): (r: seq<Key>)
    ensures |r| == |s| && forall i | 0 <= i < |s| :: r[i] == s[|s| - 1 - i]
  {
    if s == [] then [] else Reverse(s[1..]) + [s[0]]
  }

  /** History: the store page reversed to oldest first, the lookahead dropped from the
      front, cursor on the first kept row. */
  ghost function HistoryPage(rows: set<Key>, cursor: Option<Key>, limit: nat): Page
    requires limit > 0
  {
    var messages := Reverse(Query(rows, cursor, limit + 1));
    if |messages| > limit then Page(messages[1..], Some(messages[1])) else Page(messages, None)
  }

  /** The history page is the list page read backwards, with the same cursor. */
  lemma HistoryIsListReversed(rows: set<Key>, cursor: Option<Key>, limit: nat)
    requires limit > 0
    ensures HistoryPage(rows, cursor, limit).next == ListPage(rows, cursor, limit).next
    ensures HistoryPage(rows, cursor, limit).items == Reverse(ListPage(rows, cursor, limit).items)
  {
    hide Select, Reverse, IsSelection;
    SelectPage(After(rows, cursor), limit + 1);
    var v := Select(After(rows, cursor), limit + 1);
    SelectionSize(After(rows, cursor), limit + 1, v);
    if |v| > limit { ReverseCut(v); }
  }

  lemma SelectionSize(c: set<Key>, n: nat, v: seq<Key>)
    requires IsSelection(c, n, v)
    ensures |v| <= n
  {
  }

  /** Dropping the front of a reversed page is dropping the end of the page. */
  lemma ReverseCut(v: seq<Key>)
    requires |v| > 1
    ensures Reverse(v)[1..] == Reverse(v[..|v| - 1]) && Reverse(v)[1] == v[|v| - 2]
  {
    hide Reverse;
    var m := |v| - 1;
    assert v == v[..m] + [v[m]];
    ReverseConcat(v[..m], [v[m]]);
    var w := Reverse(v[..m]);
    assert Reverse(v) == Reverse([v[m]]) + w;
    assert w[0] == v[..m][m - 1];
  }

  /** One page: newest first, after the cursor, and complete down to where the next one starts. */
  ghost predicate PageSound(rows: set<Key>, cursor: Option<Key>, p: Page) {
    && Descending(p.items)
    && (forall k <- p.items :: k in rows && Before(k, cursor))
    && (p.next.Some? ==> p.items != [] && p.next.value == p.items[|p.items| - 1])
    && (forall k <- rows | Before(k, cursor) && k !in p.items :: p.next.Some? && Below(k, p.next.value))
  }

  /** Without the lookahead row, the rows left out are below the last row kept. */
  lemma LookaheadCut(c: set<Key>, v: seq<Key>, limit: nat)
    requires limit > 0 && IsSelection(c, limit + 1, v) && |v| > limit
    ensures Descending(v[..limit]) && forall k <- v[..limit] :: k in c
    ensures forall k <- c | k !in v[..limit] :: Below(k, v[limit - 1])
  {
    hide Below;
    assert forall k <- v[..limit] :: k in v;
    forall k <- c | k !in v[..limit] ensures Below(k, v[limit - 1]) {
      assert Below(v[limit], v[limit - 1]);
      if k in v {
        var i :| 0 <= i < |v| && v[i] == k;
        assert forall j | 0 <= j < limit :: v[j] == v[..limit][j];
      } else {
        BelowOrder(k, v[limit], v[limit - 1]);
      }
    }
  }

  lemma NothingLeft(c: set<Key>, v: seq<Key>, limit: nat)
    requires IsSelection(c, limit + 1, v) && |v| <= limit
    ensures Descending(v) && (forall k <- v :: k in c) && forall k <- c :: k in v
  {
    hide Below;
  }

  /** The lookahead row is a row the page leaves out. */
  lemma LeftOut(c: set<Key>, v: seq<Key>, limit: nat)
    requires IsSelection(c, limit + 1, v) && |v| > limit
    ensures v[limit] in c && v[limit] !in v[..limit]
  {
    assert v[limit] in v;
    forall i | 0 <= i < limit ensures v[i] != v[limit] {
      BelowOrder(v[i], v[i], v[i]);
    }
  }

  lemma ListPageSound(rows: set<Key>, cursor: Option<Key>, limit: nat)
    requires limit > 0
    ensures var p := ListPage(rows, cursor, limit);
            && PageSound(rows, cursor, p) && |p.items| <= limit
            && (p.next.Some? ==> |p.items| == limit && exists k <- rows :: Before(k, cursor) && k !in p.items)
  {
    var c := After(rows, cursor);
    SelectPage(c, limit + 1);
    var v := Select(c, limit + 1);
    hide Select, IsSelection, Below;
    if |v| > limit {
      LookaheadCut(c, v, limit);
      LeftOut(c, v, limit);
    } else {
      NothingLeft(c, v, limit);
    }
  }

  // ----- Following cursors -----

  /** What the server answers: a page with the token of the next one, or an error. */
  datatype Response = Answered(items: seq<Key>, next: Option<string>) | HttpError

  datatype Status = Complete | Cut | Failed

  /** `used` requests were made; `Cut` means the walk was given up before its last page. */
  datatype Walk = Walk(items: seq<Key>, status: Status, used: nat)

  /** What following the tokens of `server` from request `i` on collects. */
  function Gather(server: (nat, string) -> Response, i: nat, token: string, budget: nat): Walk
    decreases budget
  {
    if budget == 0 then Walk([], Cut, 0)
    else
      match server(i, token)
      case HttpError => Walk([], Failed, 1)
      case Answered(items, next) =>
        if next.None? || next.value == "" then Walk(items, Complete, 1)
        else
          var w := Gather(server, i + 1, next.value, budget - 1);
          Walk(items + w.items, w.status, w.used + 1)
  }

  /** A walk with pages already collected by `n` requests. */
  function Resumed(items: seq<Key>, n: nat, w: Walk): Walk {
    Walk(items + w.items, w.status, n + w.used)
  }

  lemma ResumedStep(items: seq<Key>, n: nat, page: seq<Key>, w: Walk)
    ensures Resumed(items, n, Walk(page + w.items, w.status, w.used + 1)) == Resumed(items + page, n + 1, w)
    ensures Resumed([], 0, w) == w && Resumed(items, n, Walk([], w.status, w.used)) == Walk(items, w.status, n + w.used)
  {
    assert items + (page + w.items) == items + page + w.items;
  }

  /** `agentSessionList`: append each page and advance the cursor until none is left. */
  method SessionList(server: (nat, string) -> Response, budget: nat) returns (w: Walk)
    ensures w == Gather(server, 0, "", budget)
  {
    hide Gather, Resumed;
    var items, cursor, i := [], "", 0;
    ResumedStep([], 0, [], Gather(server, 0, "", budget));
    while i < budget
      invariant 0 <= i <= budget
      invariant Gather(server, 0, "", budget) == Resumed(items, i, Gather(server, i, cursor, budget - i))
    {
      GatherStep(server, i, cursor, budget - i);
      match server(i, cursor) {
        case HttpError =>
          ResumedStep(items, i, [], Walk([], Failed, 1));
          return Walk(items, Failed, i + 1);
        case Answered(page, next) =>
          if next.None? || next.value == "" {
            ResumedStep(items, i, page, Walk([], Complete, 0));
            ResumedStep(items + page, i + 1, [], Walk([], Complete, 0));
            assert page + [] == page;
            return Walk(items + page, Complete, i + 1);
          }
          ResumedStep(items, i, page, Gather(server, i + 1, next.value, budget - i - 1));
          items, i, cursor := items + page, i + 1, next.value;
      }
    }
    GatherStep(server, i, cursor, 0);
    ResumedStep(items, i, [], Walk([], Cut, 0));
    return Walk(items, Cut, i);
  }

  lemma GatherStep(server: (nat, string) -> Response, i: nat, token: string, budget: nat)
    ensures Gather(server, i, token, budget)
         == if budget == 0 then Walk([], Cut, 0)
            else if server(i, token).HttpError? then Walk([], Failed, 1)
            else
              var Answered(items, next) := server(i, token);
              if next.None? || next.value == "" then Walk(items, Complete, 1)
              else
                var w := Gather(server, i + 1, next.value, budget - 1);
                Walk(items + w.items, w.status, w.used + 1)
  {
  }

  /** One request: the rows visible when it is served, and the page size it asks for. */
  datatype Request = Request(rows: set<Key>, limit: nat)

  function Token(c: Codec, scope: string, k: Key): string {
    Encode(c, PageCursor(scope, k.created, k.id))
  }

  ghost predicate Usable(c: Codec, scope: string, k: Key) {
    k.created != "" && k.id != "" && |Token(c, scope, k)| <= MAX_TOKEN
  }

  /** `handleAgentV1ListSessions` on the state of request `q`. */
  ghost function Serve(c: Codec, scope: string, q: Request, token: string): Response {
    if !(1 <= q.limit <= 200) then HttpError
    else
      match Decode(c, token, scope)
      case Err(_) => HttpError
      case Ok(cur) =>
        var p := ListPage(q.rows, if cur.Some? then Some(Key(cur.value.created, cur.value.id)) else None, q.limit);
        Answered(p.items, if p.next.Some? then Some(Token(c, scope, p.next.value)) else None)
  }

  ghost function ServerFor(c: Codec, scope: string, reqs: seq<Request>): (nat, string) -> Response {
    (i: nat, token: string) => if i < |reqs| then Serve(c, scope, reqs[i], token) else HttpError
  }

  /** Rows the caller can rely on: there in every request the walk made. */
  ghost predicate Throughout(reqs: seq<Request>, i: nat, used: nat, k: Key) {
    i + used <= |reqs| && forall j | i <= j < i + used :: k in reqs[j].rows
  }

  ghost predicate ServedSome(reqs: seq<Request>, i: nat, used: nat, k: Key) {
    i + used <= |reqs| && exists j :: i <= j < i + used && k in reqs[j].rows
  }

  ghost predicate TokenFor(c: Codec, scope: string, token: string, cursor: Option<Key>) {
    if cursor.None? then token == "" else token == Token(c, scope, cursor.value)
  }

  lemma DecodesTo(c: Codec, scope: string, token: string, cursor: Option<Key>)
    requires Sound(c) && TokenFor(c, scope, token, cursor) && Decode(c, token, scope).Ok?
    ensures Decode(c, token, scope).value
         == if cursor.Some? then Some(PageCursor(scope, cursor.value.created, cursor.value.id)) else None
  {
    if cursor.Some? {
      var p := PageCursor(scope, cursor.value.created, cursor.value.id);
      var body := c.marshal(p);
      PiecesOfTwo(c.encode64(body), c.encode64(c.mac(body)));
      assert token[|c.encode64(body)|] == '.';
    }
  }

  /** Whether a token is refused depends on the key alone. */
  lemma UsableDecodes(c: Codec, scope: string, token: string, cursor: Option<Key>)
    requires Sound(c) && TokenFor(c, scope, token, cursor)
    ensures Decode(c, token, scope).Ok? <==> cursor.None? || Usable(c, scope, cursor.value)
  {
    if cursor.Some? {
      var p := PageCursor(scope, cursor.value.created, cursor.value.id);
      CursorRoundTrip(c, p, scope);
      if Decode(c, token, scope).Ok? { DecodesTo(c, scope, token, cursor); }
    }
  }

  /** A served request in terms of the key its token stands for. */
  lemma ServeStep(c: Codec, scope: string, q: Request, token: string, cursor: Option<Key>)
    requires Sound(c) && TokenFor(c, scope, token, cursor)
    ensures Serve(c, scope, q, token)
         == if !(1 <= q.limit <= 200) || (cursor.Some? && !Usable(c, scope, cursor.value)) then HttpError
            else
              var p := ListPage(q.rows, cursor, q.limit);
              Answered(p.items, if p.next.Some? then Some(Token(c, scope, p.next.value)) else None)
    ensures forall k :: Token(c, scope, k) != ""
  {
    UsableDecodes(c, scope, token, cursor);
    if Decode(c, token, scope).Ok? { DecodesTo(c, scope, token, cursor); }
    forall k ensures Token(c, scope, k) != "" {
      var body := c.marshal(PageCursor(scope, k.created, k.id));
      assert Token(c, scope, k)[|c.encode64(body)|] == '.';
    }
  }

  /** Strictly newest first, only rows that were there when served, and, if the walk
      reached the last page, every row that was there throughout. */
  ghost predicate WalkSound(reqs: seq<Request>, i: nat, cursor: Option<Key>, w: Walk) {
    && i + w.used <= |reqs|
    && Descending(w.items)
    && (forall k <- w.items :: Before(k, cursor) && ServedSome(reqs, i, w.used, k))
    && (w.status == Complete ==>
          w.used > 0 && forall k | Throughout(reqs, i, w.used, k) && Before(k, cursor) :: k in w.items)
  }

  lemma {:induction false} WalkFrom(c: Codec, scope: string, reqs: seq<Request>, i: nat, token: string,
                                    cursor: Option<Key>)
    requires Sound(c) && i <= |reqs| && TokenFor(c, scope, token, cursor)
    ensures WalkSound(reqs, i, cursor, Gather(ServerFor(c, scope, reqs), i, token, |reqs| - i))
    decreases |reqs| - i
  {
    hide Serve, Sound, Token, ListPage, WalkSound, PageSound;
    var server := ServerFor(c, scope, reqs);
    if i == |reqs| {
      WalkNone(reqs, i, cursor, Cut, 0);
      return;
    }
    var q := reqs[i];
    ServeStep(c, scope, q, token, cursor);
    if server(i, token).HttpError? {
      WalkNone(reqs, i, cursor, Failed, 1);
    } else {
      var p := ListPage(q.rows, cursor, q.limit);
      ListPageSound(q.rows, cursor, q.limit);
      if p.next.Some? {
        var token' := Token(c, scope, p.next.value);
        WalkFrom(c, scope, reqs, i + 1, token', p.next);
        WalkJoin(p, Gather(server, i + 1, token', |reqs| - i - 1), cursor, reqs, i);
      } else {
        WalkLast(p, cursor, reqs, i);
      }
    }
  }

  lemma WalkNone(reqs: seq<Request>, i: nat, cursor: Option<Key>, status: Status, used: nat)
    requires status != Complete && i + used <= |reqs|
    ensures WalkSound(reqs, i, cursor, Walk([], status, used))
  {
  }

  lemma WalkLast(p: Page, cursor: Option<Key>, reqs: seq<Request>, i: nat)
    requires i < |reqs| && p.next.None? && PageSound(reqs[i].rows, cursor, p)
    ensures WalkSound(reqs, i, cursor, Walk(p.items, Complete, 1))
  {
    forall k <- p.items ensures ServedSome(reqs, i, 1, k) {
      assert k in reqs[i].rows;
    }
    forall k | Throughout(reqs, i, 1, k) && Before(k, cursor) ensures k in p.items {
      assert k in reqs[i].rows;
    }
  }

  lemma WalkJoin(p: Page, w: Walk, cursor: Option<Key>, reqs: seq<Request>, i: nat)
    requires i < |reqs| && PageSound(reqs[i].rows, cursor, p) && p.next.Some?
    requires WalkSound(reqs, i + 1, p.next, w)
    ensures WalkSound(reqs, i, cursor, Walk(p.items + w.items, w.status, w.used + 1))
  {
    forall k <- p.items ensures ServedSome(reqs, i, w.used + 1, k) {
      assert k in reqs[i].rows;
    }
    assert p.next.value in p.items;
    forall k <- w.items ensures Before(k, cursor) && ServedSome(reqs, i, w.used + 1, k) {
      if cursor.Some? { BelowOrder(k, p.next.value, cursor.value); }
      var j :| i + 1 <= j < i + 1 + w.used && k in reqs[j].rows;
    }
    forall a, b | a in p.items && b in w.items ensures Below(b, a) {
      BelowOrder(b, p.next.value, a);
    }
    forall k | w.status == Complete && Throughout(reqs, i, w.used + 1, k) && Before(k, cursor)
      ensures k in p.items + w.items
    {
      assert k in reqs[i].rows && Throughout(reqs, i + 1, w.used, k);
    }
  }

  /** Every key that is ever served, and that each of them fits in a token. */
  ghost predicate Among(c: Codec, scope: string, reqs: seq<Request>, keys: set<Key>) {
    && (forall j | 0 <= j < |reqs| :: reqs[j].rows <= keys && 1 <= reqs[j].limit <= 200)
    && (forall k <- keys :: Usable(c, scope, k))
  }

  lemma FewerAfter(keys: set<Key>, cursor: Option<Key>, next: Key)
    requires next in keys && Before(next, cursor)
    ensures |After(keys, Some(next))| < |After(keys, cursor)|
  {
    var a, b := After(keys, Some(next)), After(keys, cursor);
    BelowOrder(next, next, next);
    forall k <- a ensures k in b {
      if cursor.Some? { BelowOrder(k, next, cursor.value); }
    }
    assert next in b && next !in a;
    var rest := b - {next};
    assert a <= rest;
    assert rest == a + (rest - a);
  }

  /** Each request leaves fewer keys ahead, so a walk with more requests than keys ends. */
  lemma {:induction false} WalkEnds(
    c: Codec, scope: string, reqs: seq<Request>, i: nat, token: string, cursor: Option<Key>, keys: set<Key>)
    requires Sound(c) && i <= |reqs| && TokenFor(c, scope, token, cursor) && Among(c, scope, reqs, keys)
    requires |After(keys, cursor)| < |reqs| - i && (cursor.Some? ==> cursor.value in keys)
    ensures Gather(ServerFor(c, scope, reqs), i, token, |reqs| - i).status == Complete
    decreases |reqs| - i
  {
    hide Serve, Sound, Token, ListPage, PageSound, After, Usable;
    var q, server := reqs[i], ServerFor(c, scope, reqs);
    ServeStep(c, scope, q, token, cursor);
    var p := ListPage(q.rows, cursor, q.limit);
    ListPageSound(q.rows, cursor, q.limit);
    if p.next.Some? {
      NextServed(q.rows, cursor, p);
      FewerAfter(keys, cursor, p.next.value);
      WalkEnds(c, scope, reqs, i + 1, Token(c, scope, p.next.value), p.next, keys);
    }
  }

  lemma NextServed(rows: set<Key>, cursor: Option<Key>, p: Page)
    requires PageSound(rows, cursor, p) && p.next.Some?
    ensures p.next.value in rows && Before(p.next.value, cursor)
  {
    assert p.next.value in p.items;
  }

  /** With sensible limits and keys that fit in tokens, following cursors reaches the end
      within one request more than there are keys, whatever is inserted and removed. */
  lemma WalkCompletes(c: Codec, scope: string, reqs: seq<Request>, keys: set<Key>)
    requires Sound(c) && Among(c, scope, reqs, keys) && |keys| < |reqs|
    ensures Gather(ServerFor(c, scope, reqs), 0, "", |reqs|).status == Complete
  {
    hide Gather, Sound, Among;
    assert After(keys, None) == keys;
    WalkEnds(c, scope, reqs, 0, "", None, keys);
  }

  /** A sound walk from the first page, without its order. */
  lemma WalkDelivers(reqs: seq<Request>, w: Walk)
    requires WalkSound(reqs, 0, None, w)
    ensures w.used <= |reqs| && Distinct(w.items)
    ensures forall k <- w.items :: exists j :: 0 <= j < w.used && k in reqs[j].rows
    ensures w.status == Complete ==>
      forall k | (forall j | 0 <= j < w.used :: k in reqs[j].rows) :: k in w.items
  {
    hide Below;
    forall i, j | 0 <= i < j < |w.items| ensures w.items[i] != w.items[j] {
      BelowOrder(w.items[i], w.items[i], w.items[i]);
    }
    forall k <- w.items ensures exists j :: 0 <= j < w.used && k in reqs[j].rows {
      assert ServedSome(reqs, 0, w.used, k);
    }
    forall k | w.status == Complete && (forall j | 0 <= j < w.used :: k in reqs[j].rows) ensures k in w.items {
      assert Throughout(reqs, 0, w.used, k) && Before(k, None);
    }
  }

  /** The session list: for any page sizes and whatever happens to the table between
      requests, a walk that ends returns each row at most once, only rows that were
      there, and every row visible throughout. */
  lemma SessionListComplete(
    c: Codec, scope: string, tables: seq<map<string, SessionRow>>, limits: seq<nat>, all: bool, id: string,
        created: string)
    requires Sound(c) && |tables| == |limits|
    ensures
      var reqs := SessionRequests(tables, limits, all);
      var w := Gather(ServerFor(c, scope, reqs), 0, "", |reqs|);
      && (forall i, j | 0 <= i < j < |w.items| :: Older(w.items[j], w.items[i]))
      && (forall k <- w.items ::
            exists j :: 0 <= j < w.used <= |tables| && SessionVisible(tables[j], all, k.id, k.created))
      && w.used <= |tables|
      && (w.status == Complete ==>
            (forall j | 0 <= j < w.used :: SessionVisible(tables[j], all, id, created)) ==> Key(created, id) in w.items)
  {
    hide Gather, ServerFor, Sound, SessionVisible, SessionKeys, Below, Older;
    var reqs := SessionRequests(tables, limits, all);
    var w := Gather(ServerFor(c, scope, reqs), 0, "", |reqs|);
    WalkFrom(c, scope, reqs, 0, "", None);
    WalkDelivers(reqs, w);
    forall i, j | 0 <= i < j < |w.items| ensures Older(w.items[j], w.items[i]) {
      OlderIsBelow(w.items[j], w.items[i]);
    }
    forall k <- w.items
      ensures exists j :: 0 <= j < w.used <= |tables| && SessionVisible(tables[j], all, k.id, k.created)
    {
      var j :| 0 <= j < w.used && k in reqs[j].rows;
      KeyVisible(tables[j], all, k);
    }
    if w.status == Complete && (forall j | 0 <= j < w.used :: SessionVisible(tables[j], all, id, created)) {
      forall j | 0 <= j < w.used ensures Key(created, id) in reqs[j].rows {
        VisibleKey(tables[j], all, id, created);
      }
    }
  }

  lemma KeyVisible(t: map<string, SessionRow>, all: bool, k: Key)
    requires k in SessionKeys(t, all)
    ensures SessionVisible(t, all, k.id, k.created)
  {
  }

  lemma VisibleKey(t: map<string, SessionRow>, all: bool, id: string, created: string)
    requires SessionVisible(t, all, id, created)
    ensures Key(created, id) in SessionKeys(t, all)
  {
  }

  ghost predicate SessionVisible(t: map<string, SessionRow>, all: bool, id: string, created: string) {
    id in t && t[id].created == created && (all || !t[id].archived)
  }

  ghost function SessionRequests(tables: seq<map<string, SessionRow>>, limits: seq<nat>, all: bool): seq<Request>
    requires |tables| == |limits|
  {
    seq(|tables|, i requires 0 <= i < |tables| => Request(SessionKeys(tables[i], all), limits[i]))
  }

  // ----- History -----

  /** Reading a transcript backwards: each older page goes in front of what is there. */
  ghost function ReadBack(c: Codec, scope: string, reqs: seq<Request>, cursor: Option<Key>): Walk
    decreases |reqs|
  {
    if reqs == [] then Walk([], Cut, 0)
    else if !(1 <= reqs[0].limit <= 200) || (cursor.Some? && !Usable(c, scope, cursor.value)) then Walk([], Failed, 1)
    else
      var p := HistoryPage(reqs[0].rows, cursor, reqs[0].limit);
      if p.next.None? then Walk(p.items, Complete, 1)
      else
        var w := ReadBack(c, scope, reqs[1..], p.next);
        Walk(w.items + p.items, w.status, w.used + 1)
  }

  lemma ReverseConcat(a: seq<Key>, b: seq<Key>)
    ensures Reverse(a + b) == Reverse(b) + Reverse(a)
  {
  }

  /** The transcript read backwards is the newest-first walk over the same requests, reversed. */
  lemma {:induction false} ReadBackIsWalkReversed(c: Codec, scope: string, reqs: seq<Request>, i: nat, token: string,
      cursor: Option<Key>)
    requires Sound(c) && i <= |reqs| && TokenFor(c, scope, token, cursor)
    ensures var w := Gather(ServerFor(c, scope, reqs), i, token, |reqs| - i);
            ReadBack(c, scope, reqs[i..], cursor) == w.(items := Reverse(w.items))
    decreases |reqs| - i
  {
    hide Serve, Sound, Token, ListPage, HistoryPage, Usable, Gather, ReadBack, Reverse;
    var server := ServerFor(c, scope, reqs);
    NothingReversed();
    GatherStep(server, i, token, |reqs| - i);
    ReadBackStep(c, scope, reqs[i..], cursor);
    if i < |reqs| {
      var q := reqs[i];
      ServeStep(c, scope, q, token, cursor);
      assert reqs[i..][0] == q && reqs[i..][1..] == reqs[i + 1..];
      if server(i, token).Answered? {
        HistoryIsListReversed(q.rows, cursor, q.limit);
        var p := ListPage(q.rows, cursor, q.limit);
        if p.next.Some? {
          var token' := Token(c, scope, p.next.value);
          ReadBackIsWalkReversed(c, scope, reqs, i + 1, token', p.next);
          ReverseConcat(p.items, Gather(server, i + 1, token', |reqs| - i - 1).items);
        }
      }
    }
  }

  lemma NothingReversed()
    ensures Reverse([]) == []
  {
  }

  lemma ReadBackStep(c: Codec, scope: string, reqs: seq<Request>, cursor: Option<Key>)
    ensures ReadBack(c, scope, reqs, cursor)
         == if reqs == [] then Walk([], Cut, 0)
            else if !(1 <= reqs[0].limit <= 200) || (cursor.Some? && !Usable(c, scope, cursor.value)) then
              Walk([], Failed, 1)
            else
              var p := HistoryPage(reqs[0].rows, cursor, reqs[0].limit);
              if p.next.None? then Walk(p.items, Complete, 1)
              else
                var w := ReadBack(c, scope, reqs[1..], p.next);
                Walk(w.items + p.items, w.status, w.used + 1)
  {
    hide HistoryPage, Usable;
  }

  lemma ReverseMembers(s: seq<Key>)
    ensures forall k :: k in Reverse(s) <==> k in s
  {
    var r := Reverse(s);
    forall k <- s ensures k in r {
      var i :| 0 <= i < |s| && s[i] == k;
      assert r[|r| - 1 - i] == k;
    }
  }

  lemma ReverseAscends(s: seq<Key>)
    requires Descending(s)
    ensures forall i, j | 0 <= i < j < |s| :: Below(Reverse(s)[i], Reverse(s)[j])
  {
  }

  ghost function MessageRequests(tables: seq<map<string, MessageRow>>, limits: seq<nat>, session: string): seq<Request>
    requires |tables| == |limits|
  {
    seq(|tables|, i requires 0 <= i < |tables| => Request(MessageKeys(tables[i], session), limits[i]))
  }

  ghost predicate MessageThere(t: map<string, MessageRow>, session: string, id: string, created: string) {
    id in t && t[id] == MessageRow(session, created)
  }

  /** The transcript: oldest first without repeats, and complete for messages that were
      there throughout, whatever was added or removed between requests. */
  lemma HistoryComplete(
    c: Codec, scope: string, tables: seq<map<string, MessageRow>>, limits: seq<nat>, session: string, id: string,
        created: string)
    requires Sound(c) && |tables| == |limits|
    ensures var w := ReadBack(c, scope, MessageRequests(tables, limits, session), None);
      && (forall i, j | 0 <= i < j < |w.items| :: Older(w.items[i], w.items[j]))
      && (forall k <- w.items ::
            exists j :: 0 <= j < w.used <= |tables| && MessageThere(tables[j], session, k.id, k.created))
      && w.used <= |tables|
      && (w.status == Complete ==>
            (forall j | 0 <= j < w.used :: MessageThere(tables[j], session, id, created)) ==>
                Key(created, id) in w.items)
  {
    hide Gather, ReadBack, Sound, Below, Older;
    var reqs := MessageRequests(tables, limits, session);
    var w := Gather(ServerFor(c, scope, reqs), 0, "", |reqs|);
    WalkFrom(c, scope, reqs, 0, "", None);
    ReadBackIsWalkReversed(c, scope, reqs, 0, "", None);
    assert reqs[0..] == reqs;
    ReverseMembers(w.items);
    ReverseAscends(w.items);
    var r := Reverse(w.items);
    forall i, j | 0 <= i < j < |r| ensures Older(r[i], r[j]) {
      OlderIsBelow(r[i], r[j]);
    }
    forall k <- w.items
      ensures exists j :: 0 <= j < w.used <= |tables| && MessageThere(tables[j], session, k.id, k.created)
    {
      var j :| 0 <= j < w.used && k in reqs[j].rows;
      assert MessageThere(tables[j], session, k.id, k.created);
    }
    if w.status == Complete && (forall j | 0 <= j < w.used :: MessageThere(tables[j], session, id, created)) {
      assert Throughout(reqs, 0, w.used, Key(created, id));
    }
  }
}
