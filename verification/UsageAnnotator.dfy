/**
 The writer that annotates usage events of a server-sent event stream.  Bytes arrive in
 arbitrary chunks; whole lines are rewritten and passed on, an unfinished line waits.
 A `char` stands for one byte.
 */
module UsageAnnotator {
  import opened Common
  import opened Text
  import opened LineStream

  datatype Json = Str(s: string) | Num(text: string) | Int(n: int) | Obj(members: map<string,
                      Json>) | Other(raw: string)

  type Object = map<string, Json>

  /** JSON, the model catalog and the context reading are the host's; `parse` trims the space
      around a payload before it decodes it.  `contextUsed` is
      indexed by how often it has been asked. */
  datatype Host = Host(
    parse: string -> Option<Object>,
    marshal: Object -> Option<string>,
    int64: string -> Option<int>,
    window: string -> int,
    catalogued: string -> bool,
    contextUsed: Option<nat -> Option<int>>)

  datatype Memory = Memory(model: string, asked: nat)

  // ----- One line -----

  const COUNTED := ["uncached_input", "cache_read", "cache_write", "output", "reasoning"]

  const ADDED := {"used", "model", "window", "window_source"}

  /** Two's complement, as the 64-bit sum behaves. */
  function Wrap(n: int): int {
    (n + 0x8000_0000_0000_0000) % 0x1_0000_0000_0000_0000 - 0x8000_0000_0000_0000
  }

  /** The integer an entry counts for: entries that are no integers count nothing. */
  function Tokens(h: Host, usage: Object, key: string): int {
    if key in usage && usage[key].Num? && h.int64(usage[key].text).Some? then h.int64(usage[key].text).value else 0
  }

  function Total(h: Host, usage: Object, keys: seq<string>): int {
    if keys == [] then 0 else Total(h, usage, keys[..|keys| - 1]) + Tokens(h, usage, keys[|keys| - 1])
  }

  lemma WrapSum(a: int, b: int)
    ensures Wrap(Wrap(a) + b) == Wrap(a + b)
  {
  }

  /** The 64-bit value of a sum: in range, and off by a multiple of 2^64. */
  lemma WrapExactly(n: int, w: int)
    ensures w == Wrap(n) <==>
            -0x8000_0000_0000_0000 <= w < 0x8000_0000_0000_0000 && (n - w) % 0x1_0000_0000_0000_0000 == 0
  {
  }

  /** The five entries that count. */
  function Sum(h: Host, usage: Object): int {
    Tokens(h, usage, "uncached_input") + Tokens(h, usage, "cache_read") + Tokens(h, usage, "cache_write")
    + Tokens(h, usage, "output") + Tokens(h, usage, "reasoning")
  }

  lemma TotalIsSum(h: Host, usage: Object)
    ensures Total(h, usage, COUNTED) == Sum(h, usage)
  {
    hide Tokens;
    var k4, k3, k2, k1 := COUNTED[..4], COUNTED[..3], COUNTED[..2], COUNTED[..1];
    assert k4[..3] == k3 && k3[..2] == k2 && k2[..1] == k1 && k1[..0] == [];
    assert Total(h, usage, k1) == Tokens(h, usage, "uncached_input");
    assert Total(h, usage, k2) == Total(h, usage, k1) + Tokens(h, usage, "cache_read");
    assert Total(h, usage, k3) == Total(h, usage, k2) + Tokens(h, usage, "cache_write");
    assert Total(h, usage, k4) == Total(h, usage, k3) + Tokens(h, usage, "output");
  }

  /** `sumUsage`: the wrapping sum over the counted entries. */
  method SumUsage(h: Host, usage: Object) returns (total: int)
    ensures total == Wrap(Total(h, usage, COUNTED)) == Wrap(Sum(h, usage))
  {
    TotalIsSum(h, usage);
    hide Sum;
    total := 0;
    for i := 0 to |COUNTED|
      invariant total == Wrap(Total(h, usage, COUNTED[..i]))
    {
      var key := COUNTED[i];
      assert COUNTED[..i + 1][..i] == COUNTED[..i];
      WrapSum(Total(h, usage, COUNTED[..i]), Tokens(h, usage, key));
      total := Wrap(total + Tokens(h, usage, key));
    }
    assert COUNTED[..|COUNTED|] == COUNTED;
  }

  function Field(ev: Object, key: string): string {
    if key in ev && ev[key].Str? then ev[key].s else ""
  }

  predicate Mentions(payload: string, word: string)
    requires word != ""
  {
    Find(payload, word).Some?
  }

  /** How full the context is: the host's reading for a finished run, else the event's own. */
  function Used(h: Host, m: Memory, verb: string, usage: Object): int {
    var own := Wrap(Total(h, usage, COUNTED));
    if verb == "run.finish" && h.contextUsed.Some? && h.contextUsed.value(m.asked).Some?
    then h.contextUsed.value(m.asked).value else own
  }

  function Enrich(h: Host, m: Memory, verb: string, usage: Object): Object {
    var used := Used(h, m, verb, usage);
    var counted := if used > 0 then usage["used" := Int(used)] else usage;
    if m.model == "" then counted
    else counted["model" := Str(m.model)]["window" := Int(h.window(m.model))]
                ["window_source" := Str(if h.catalogued(m.model) then "catalog" else "default")]
  }

  function AnnotateEvent(h: Host, m: Memory, verb: string, ev: Object, line: string): (r: (Memory, string))
    requires |line| >= 5
  {
    var had := "usage" in ev && ev["usage"].Obj?;
    if !had && verb == "usage" then (m, line)
    else
      var usage := if had then ev["usage"].members else map[];
      var m' := if verb == "run.finish" && h.contextUsed.Some? then m.(asked := m.asked + 1) else m;
      match h.marshal(ev["usage" := Obj(Enrich(h, m, verb, usage))])
      case None => (m', line)
      case Some(body) => (m', "data:" + (if line[5..] != "" && line[5] == ' ' then " " else "") + body)
  }

  function AnnotateLine(h: Host, m: Memory, line: string): (r: (Memory, string)) {
    if |line| < 5 || line[..5] != "data:" then (m, line)
    else
      var payload := line[5..];
      if !Mentions(payload, "\"run.start\"") && !Mentions(payload, "\"run.finish\"")
          && !Mentions(payload, "\"verb\":\"usage\"")
      then (m, line)
      else
        match h.parse(payload)
        case None => (m, line)
        case Some(ev) =>
          var verb := Field(ev, "verb");
          if verb == "run.start" then (if Field(ev, "model") != "" then m.(model := Field(ev, "model")) else m, line)
          else if verb == "run.finish" || verb == "usage" then AnnotateEvent(h, m, verb, ev, line)
          else (m, line)
  }

  /** The line is the data frame of an event the host decodes and the first look lets through. */
  ghost predicate Frames(h: Host, line: string, ev: Object) {
    && "data:" <= line && h.parse(line[5..]) == Some(ev)
    && (Contains(line[5..], "\"run.start\"") || Contains(line[5..], "\"run.finish\"")
        || Contains(line[5..], "\"verb\":\"usage\""))
  }

  ghost predicate Has(ev: Object, key: string, value: string) {
    key in ev && ev[key] == Str(value)
  }

  /** The event carries usage: a finished run always, a usage event when it has a usage object. */
  ghost predicate Carries(ev: Object) {
    Has(ev, "verb", "run.finish") || (Has(ev, "verb", "usage") && "usage" in ev && ev["usage"].Obj?)
  }

  function UsageOf(ev: Object): Object {
    if "usage" in ev && ev["usage"].Obj? then ev["usage"].members else map[]
  }

  /** `u` is `before` with entry `key` set to `value`, or with that entry as it was. */
  ghost predicate Entry(before: Object, u: Object, key: string, value: Option<Json>) {
    if value.Some? then key in u && u[key] == value.value
    else (key in u <==> key in before) && (key in u ==> u[key] == before[key])
  }

  /** What the usage object of the event becomes: the host's reading of the context for a finished
      run, if it has one, else the event's own sum, if positive; the model with its window, if it
      is known; and every other entry as it was. */
  ghost predicate Annotated(h: Host, m: Memory, ev: Object, u: Object) {
    var before := UsageOf(ev);
    var reading := if Has(ev, "verb", "run.finish") && h.contextUsed.Some? then h.contextUsed.value(m.asked) else None;
    var used := if reading.Some? then reading.value else Wrap(Sum(h, before));
    var known := m.model != "";
    && Entry(before, u, "used", if used > 0 then Some(Int(used)) else None)
    && Entry(before, u, "model", if known then Some(Str(m.model)) else None)
    && Entry(before, u, "window", if known then Some(Int(h.window(m.model))) else None)
    && Entry(before, u, "window_source",
             if known then Some(Str(if h.catalogued(m.model) then "catalog" else "default")) else None)
    && forall key | key !in {"used", "model", "window", "window_source"} :: Entry(before, u, key, None)
  }

  lemma FramesIs(h: Host, line: string, ev: Object)
    ensures Frames(h, line, ev) <==>
            && |line| >= 5 && line[..5] == "data:" && h.parse(line[5..]) == Some(ev)
            && (Mentions(line[5..], "\"run.start\"") || Mentions(line[5..], "\"run.finish\"")
                || Mentions(line[5..], "\"verb\":\"usage\""))
  {
    hide Find;
    assert "data:" <= line <==> |line| >= 5 && line[..5] == "data:";
    if |line| >= 5 {
      MentionsIs(line[5..], "\"run.start\"");
      MentionsIs(line[5..], "\"run.finish\"");
      MentionsIs(line[5..], "\"verb\":\"usage\"");
    }
  }

  lemma MentionsIs(payload: string, word: string)
    requires word != ""
    ensures Mentions(payload, word) <==> Contains(payload, word)
  {
    hide Find;
  }

  lemma EnrichIs(h: Host, m: Memory, ev: Object)
    requires Carries(ev)
    ensures Annotated(h, m, ev, Enrich(h, m, Field(ev, "verb"), UsageOf(ev)))
  {
    TotalIsSum(h, UsageOf(ev));
    hide Total, Wrap, Sum;
  }

  lemma FieldIs(ev: Object)
    ensures Field(ev, "verb") == "run.finish" <==> Has(ev, "verb", "run.finish")
    ensures Field(ev, "verb") == "usage" <==> Has(ev, "verb", "usage")
    ensures Field(ev, "verb") == "run.start" <==> Has(ev, "verb", "run.start")
  {
  }

  /** Every line that frames an event carrying usage is replaced by that event with its usage
      annotated, unless the host cannot marshal it; every other line passes unchanged. */
  lemma AnnotatesExactly(h: Host, m: Memory, line: string) returns (u: Object)
    ensures var out := AnnotateLine(h, m, line).1;
            && ((forall ev :: !(Frames(h, line, ev) && Carries(ev))) ==> out == line)
            && forall ev | Frames(h, line, ev) && Carries(ev) ::
                && Annotated(h, m, ev, u)
                && out == match h.marshal(ev["usage" := Obj(u)])
                          case None => line
                          case Some(body) => (if " " <= line[5..] then "data: " else "data:") + body
  {
    u := map[];
    var parsed := if |line| >= 5 then h.parse(line[5..]) else None;
    if parsed.Some? {
      var ev := parsed.value;
      FramesIs(h, line, ev);
      FieldIs(ev);
      if Frames(h, line, ev) && Carries(ev) {
        u := Enrich(h, m, Field(ev, "verb"), UsageOf(ev));
        EnrichIs(h, m, ev);
        AnnotatedLine(h, m, line, ev);
      } else {
        PassedLine(h, m, line, ev);
      }
    }
  }

  /** Only data frames of run.finish and usage events change, and in them only `usage`:
      every entry other than the four annotations keeps its value. */
  lemma OnlyUsageChanges(h: Host, m: Memory, line: string) returns (ev: Object, ev': Object, body: string)
    requires AnnotateLine(h, m, line).1 != line
    ensures |line| >= 5 && line[..5] == "data:" && h.parse(line[5..]) == Some(ev)
    ensures Field(ev, "verb") == "run.finish" || Field(ev, "verb") == "usage"
    ensures h.marshal(ev') == Some(body)
    ensures AnnotateLine(h, m, line).1 == "data:" + body || AnnotateLine(h, m, line).1 == "data: " + body
    ensures ev'.Keys == ev.Keys + {"usage"} && ev'["usage"].Obj?
    ensures forall k <- ev | k != "usage" :: ev'[k] == ev[k]
    ensures "usage" in ev && ev["usage"].Obj? ==>
      forall k <- ev["usage"].members | k !in ADDED ::
        k in ev'["usage"].members && ev'["usage"].members[k] == ev["usage"].members[k]
    ensures m.model != "" ==>
      var u := ev'["usage"].members;
      && "model" in u && u["model"] == Str(m.model)
      && "window" in u && u["window"] == Int(h.window(m.model))
      && "window_source" in u && u["window_source"] == Str(if h.catalogued(m.model) then "catalog" else "default")
    ensures
      var before := if "usage" in ev && ev["usage"].Obj? then ev["usage"].members else map[];
      var used, u := Used(h, m, Field(ev, "verb"), before), ev'["usage"].members;
      if used > 0 then "used" in u && u["used"] == Int(used)
      else ("used" in u <==> "used" in before) && ("used" in before ==> u["used"] == before["used"])
  {
    hide AnnotateLine, Total, Wrap, Contains, Sum, Annotated;
    var u := AnnotatesExactly(h, m, line);
    ev := h.parse(line[5..]).value;
    ev' := ev["usage" := Obj(u)];
    body := h.marshal(ev').value;
    TotalIsSum(h, UsageOf(ev));
    FieldIs(ev);
    AnnotatedParts(h, m, ev, u);
  }

  lemma AnnotatedParts(h: Host, m: Memory, ev: Object, u: Object)
    requires Annotated(h, m, ev, u) && Carries(ev)
    ensures forall k <- UsageOf(ev) | k !in ADDED :: k in u && u[k] == UsageOf(ev)[k]
    ensures m.model != "" ==>
      && "model" in u && u["model"] == Str(m.model)
      && "window" in u && u["window"] == Int(h.window(m.model))
      && "window_source" in u && u["window_source"] == Str(if h.catalogued(m.model) then "catalog" else "default")
    ensures
      var before := UsageOf(ev);
      var used := Used(h, m, Field(ev, "verb"), before);
      if used > 0 then "used" in u && u["used"] == Int(used)
      else ("used" in u <==> "used" in before) && ("used" in before ==> u["used"] == before["used"])
  {
    hide Total, Wrap, Sum;
    TotalIsSum(h, UsageOf(ev));
    FieldIs(ev);
    forall k <- UsageOf(ev) | k !in ADDED ensures k in u && u[k] == UsageOf(ev)[k] {
      assert Entry(UsageOf(ev), u, k, None);
    }
  }

  lemma AnnotatedLine(h: Host, m: Memory, line: string, ev: Object)
    requires Frames(h, line, ev) && Carries(ev)
    ensures AnnotateLine(h, m, line).1
         == match h.marshal(ev["usage" := Obj(Enrich(h, m, Field(ev, "verb"), UsageOf(ev)))])
            case None => line
            case Some(body) => (if " " <= line[5..] then "data: " else "data:") + body
  {
    hide Mentions, Enrich, Contains;
    FramesIs(h, line, ev);
    FieldIs(ev);
    assert " " <= line[5..] <==> line[5..] != "" && line[5] == ' ';
    assert "data:" + " " == "data: ";
  }

  lemma PassedLine(h: Host, m: Memory, line: string, ev: Object)
    requires |line| >= 5 && h.parse(line[5..]) == Some(ev) && !(Frames(h, line, ev) && Carries(ev))
    ensures AnnotateLine(h, m, line).1 == line
  {
    hide Mentions, Enrich, Contains;
    FramesIs(h, line, ev);
    FieldIs(ev);
  }

  /** What is remembered after a line: the model a framed run.start event names, and one more
      asking for each framed run.finish event if the host can be asked. */
  lemma RemembersExactly(h: Host, m: Memory, line: string)
    ensures var m' := AnnotateLine(h, m, line).0;
            && (forall ev, name | Frames(h, line, ev) && Has(ev, "verb", "run.start") && Has(ev, "model", name) ::
                  m'.model == if name != "" then name else m.model)
            && ((forall ev, name :: !(Frames(h, line, ev) && Has(ev, "verb", "run.start") && Has(ev, "model", name)))
                  ==> m'.model == m.model)
            && (m'.asked == m.asked + 1 <==>
                  h.contextUsed.Some? && exists ev :: Frames(h, line, ev) && Has(ev, "verb", "run.finish"))
            && m.asked <= m'.asked <= m.asked + 1
  {
    hide Mentions, Enrich, Contains;
    var parsed := if |line| >= 5 then h.parse(line[5..]) else None;
    if parsed.Some? {
      FramesIs(h, line, parsed.value);
      FieldIs(parsed.value);
      assert Field(parsed.value, "model") != "" ==> Has(parsed.value, "model", Field(parsed.value, "model"));
    }
  }

  /** Only a run.start event changes the remembered model, to the one it names, and passes unchanged. */
  lemma OnlyStartSetsModel(h: Host, m: Memory, line: string)
    requires AnnotateLine(h, m, line).0.model != m.model
    ensures AnnotateLine(h, m, line).1 == line && |line| >= 5
    ensures var ev := h.parse(line[5..]);
            ev.Some? && Field(ev.value, "verb") == "run.start"
                && Field(ev.value, "model") == AnnotateLine(h, m, line).0.model
  {
    hide Find, Total, Wrap, Enrich;
  }

  // ----- The writer -----

  function Step(h: Host): (Memory, string) -> (Memory, string) {
    (m, line) => AnnotateLine(h, m, line)
  }

  lemma NothingYet(f: (Memory, string) -> (Memory, string), m: Memory)
    ensures After(f, m, []) == m && Unlines(Rewrite(f, m, [])) == ""
  {
  }

  class Annotator {
    const h: Host
    var memory: Memory
    var buf: string
    var sent: string  // what the underlying writer has accepted

    constructor (h: Host, model: string)
      ensures this.h == h && memory == Memory(model, 0) && buf == "" && sent == ""
    {
      this.h, this.memory, this.buf, this.sent := h, Memory(model, 0), "", "";
    }

    /** Append, then rewrite every line that is now complete.  `accepts` is the outcome of
        the underlying write, which happens at most once.  When it fails the lines are
        gone: they have left the buffer. */
    method Write(p: string, accepts: bool) returns (n: nat, failed: bool)
      modifies this
      ensures var lines := Lines(old(buf) + p);
        && memory == After(Step(h), old(memory), lines)
        && buf == Rest(old(buf) + p)
        && failed == (!accepts && lines != [])
        && n == (if failed then 0 else |p|)
        && sent == old(sent) + (if failed then "" else Unlines(Rewrite(Step(h), old(memory), lines)))
    {
      hide AnnotateLine, After, Rewrite, Unlines, Lines, Rest, IndexNewline;
      buf := buf + p;
      ghost var whole, m0 := buf, memory;
      var out := "";
      ghost var lines := [];
      NothingYet(Step(h), m0);
      while true
        invariant sent == old(sent)
        invariant Lines(whole) == lines + Lines(buf) && Rest(whole) == Rest(buf)
        invariant memory == After(Step(h), m0, lines)
        invariant out == Unlines(Rewrite(Step(h), m0, lines))
        invariant out == "" <==> lines == []
        decreases |buf|
      {
        var i := IndexNewline(buf);
        if i.None? {
          NoLines(buf);
          break;
        }
        LinesCons(buf, i.value);
        var line := buf[..i.value];
        var (m, l) := AnnotateLine(h, memory, line);
        RewriteSnoc(Step(h), m0, lines, line);
        assert lines + ([line] + Lines(buf[i.value + 1..])) == (lines + [line]) + Lines(buf[i.value + 1..]);
        lines := lines + [line];
        memory := m;
        out := out + l;
        out := out + "\n";
        buf := buf[i.value + 1..];
      }
      assert lines + [] == lines;
      if |out| > 0 {
        if !accepts {
          return 0, true;
        }
        sent := sent + out;
      }
      return |p|, false;
    }
  }

  // ----- Any cutting of the stream -----

  function Concat(chunks: seq<string>): string {
    if chunks == [] then "" else Concat(chunks[..|chunks| - 1]) + chunks[|chunks| - 1]
  }

  /** Writing the chunks one after another while every underlying write succeeds leaves
      the annotation of the complete lines of all bytes, and the unfinished rest waiting. */
  method WriteAll(a: Annotator, chunks: seq<string>)
    requires a.buf == "" && a.sent == ""
    modifies a
    ensures var bytes := Concat(chunks);
      && a.sent == Unlines(Rewrite(Step(a.h), old(a.memory), Lines(bytes)))
      && a.memory == After(Step(a.h), old(a.memory), Lines(bytes))
      && a.buf == Rest(bytes)
  {
    ghost var m0 := a.memory;
    NothingYet(Step(a.h), m0);
    for i := 0 to |chunks|
      invariant a.sent == Unlines(Rewrite(Step(a.h), m0, Lines(Concat(chunks[..i]))))
      invariant a.memory == After(Step(a.h), m0, Lines(Concat(chunks[..i])))
      invariant a.buf == Rest(Concat(chunks[..i]))
    {
      ghost var before := Concat(chunks[..i]);
      assert chunks[..i + 1][..i] == chunks[..i];
      CutAnywhere(before, chunks[i]);
      RewriteConcat(Step(a.h), m0, Lines(before), Lines(a.buf + chunks[i]));
      UnlinesConcat(Rewrite(Step(a.h), m0, Lines(before)), Rewrite(Step(a.h), a.memory, Lines(a.buf + chunks[i])));
      var n, failed := a.Write(chunks[i], true);
    }
    assert chunks[..|chunks|] == chunks;
  }

  /** No marshalled event holds a raw newline. */
  ghost predicate OneLine(h: Host) {
    forall ev, body | h.marshal(ev) == Some(body) :: '\n' !in body
  }

  lemma AnnotatedIsOneLine(h: Host, m: Memory, line: string)
    requires OneLine(h) && '\n' !in line
    ensures '\n' !in AnnotateLine(h, m, line).1
  {
    if AnnotateLine(h, m, line).1 != line {
      var ev, ev', body := OnlyUsageChanges(h, m, line);
    }
  }

  lemma {:induction false} RewrittenAreLines(h: Host, m: Memory, lines: seq<string>)
    requires OneLine(h) && forall l <- lines :: '\n' !in l
    ensures forall l <- Rewrite(Step(h), m, lines) :: '\n' !in l
    decreases |lines|
  {
    hide AnnotateLine, OneLine;
    if lines != [] {
      var before := lines[..|lines| - 1];
      RewrittenAreLines(h, m, before);
      AnnotatedIsOneLine(h, After(Step(h), m, before), lines[|lines| - 1]);
    }
  }

  /** Framing survives: as many newlines leave as arrived. */
  lemma NewlinesPreserved(h: Host, m: Memory, bytes: string)
    requires OneLine(h)
    ensures CountNewlines(Unlines(Rewrite(Step(h), m, Lines(bytes)))) == CountNewlines(bytes)
  {
    hide AnnotateLine, OneLine, Rewrite, CountNewlines, Unlines, Lines, Rest;
    RewrittenAreLines(h, m, Lines(bytes));
    NewlinesOfUnlines(Rewrite(Step(h), m, Lines(bytes)));
    NewlinesOfUnlines(Lines(bytes));
    NewlinesConcat(Unlines(Lines(bytes)), Rest(bytes));
    NoNewlines(Rest(bytes));
    LinesComplete(bytes);
  }
}
