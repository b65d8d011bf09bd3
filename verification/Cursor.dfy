/**
 Page cursors: a JSON body and its MAC, both in unpadded base64url, joined by a dot.
 Marshalling, the MAC and base64 are parameters; `Sound` is all that is used of them.
 */
module Cursor {
  import opened Common
  import Text

  const MAX_TOKEN := 2048

  datatype PageCursor = PageCursor(scope: string, created: string, id: string)

  datatype Codec = Codec(
    marshal: PageCursor -> string,
    unmarshal: string -> Option<PageCursor>,
    mac: string -> string,
    encode64: string -> string,
    decode64: string -> Option<string>)

  datatype Refusal = Invalid | WrongScope

  ghost predicate Sound(c: Codec) {
    && (forall p :: c.unmarshal(c.marshal(p)) == Some(p))
    && (forall s :: c.decode64(c.encode64(s)) == Some(s))
    && (forall s :: '.' !in c.encode64(s))
  }

  function Encode(c: Codec, p: PageCursor): string {
    var body := c.marshal(p);
    c.encode64(body) + "." + c.encode64(c.mac(body))
  }

  function Pieces(token: string): (r: seq<string>)
    ensures |r| >= 1
  {
    Text.Split(token, '.')
  }

  /** An empty token asks for the first page and decodes to no cursor. */
  function Decode(c: Codec, token: string, scope: string): (r: Result<Option<PageCursor>, Refusal>) {
    if token == "" then Ok(None)
    else if |token| > MAX_TOKEN then Err(Invalid)
    else
      var p := Pieces(token);
      if |p| != 2 then Err(Invalid)
      else
        match (c.decode64(p[0]), c.decode64(p[1]))
        case (Some(body), Some(signature)) =>
          if signature != c.mac(body) then Err(Invalid)
          else
            (match c.unmarshal(body)
             case Some(cur) =>
               if cur.scope != scope || cur.id == "" || cur.created == "" then Err(WrongScope) else Ok(Some(cur))
             case None => Err(WrongScope))
        case _ => Err(Invalid)
  }

  lemma PiecesOfTwo(a: string, b: string)
    requires '.' !in a && '.' !in b
    ensures Pieces(a + "." + b) == [a, b]
  {
    Text.SplitHead(a, b, '.');
    Text.SplitHead(b, "", '.');
    assert a + ['.'] + b == a + "." + b;
  }

  /** Exactly which issued tokens come back: the same scope, both key fields set, and a
      token short enough for the length limit the encoder does not look at. */
  lemma CursorRoundTrip(c: Codec, p: PageCursor, scope: string)
    requires Sound(c)
    ensures Decode(c, Encode(c, p), scope) == Ok(Some(p))
       <==> p.scope == scope && p.id != "" && p.created != "" && |Encode(c, p)| <= MAX_TOKEN
  {
    var body := c.marshal(p);
    var a, b := c.encode64(body), c.encode64(c.mac(body));
    PiecesOfTwo(a, b);
    assert c.decode64(a) == Some(body) && c.decode64(b) == Some(c.mac(body));
    assert (a + "." + b)[|a|] == '.';
  }

  /** Whatever token is accepted carries a MAC of its own body and belongs to the query. */
  lemma AcceptedIsSigned(c: Codec, token: string, scope: string)
    requires token != "" && Decode(c, token, scope).Ok?
    ensures exists a, b, body ::
              && Pieces(token) == [a, b] && c.decode64(a) == Some(body) && c.decode64(b) == Some(c.mac(body))
              && c.unmarshal(body) == Decode(c, token, scope).value
    ensures var r := Decode(c, token, scope).value;
            r.Some? && r.value.scope == scope && r.value.id != "" && r.value.created != ""
  {
    var p := Pieces(token);
    var body := c.decode64(p[0]).value;
    assert p == [p[0], p[1]];
  }
}
