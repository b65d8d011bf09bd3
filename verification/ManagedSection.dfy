/**
 The Nanite-managed section of a markdown file: writing, reading and removing the
 block between the two markers while keeping the user's own text around it.
 */
module ManagedSection {
  import opened Common
  import opened Text

  const START := "<!-- nanite:start -->"
  const NOTICE_A := "<!-- DO NOT EDIT — "
  const NOTICE_B := "managed by Nanite. "
  const NOTICE_C := "Edit NANITE.md instead. -->"
  const NOTICE := NOTICE_A + NOTICE_B + NOTICE_C
  const END := "<!-- nanite:end -->"

  const LEAD := "\n" + NOTICE + "\n\n"
  const FOOT := "\n\n" + END + "\n"

  function Block(content: string): string {
    START + LEAD + content + FOOT
  }

  /** Where the section of a text is: no start marker, a start marker without an end
      marker behind it, or a section whose end marker begins at `end`. */
  datatype Section = Missing | Orphan(start: nat) | Paired(start: nat, end: nat)

  /** The search of write and remove: the end marker from the start marker on. */
  function Locate(text: string): (r: Section)
    ensures r.Paired? ==> r.start + |END| <= r.end + |END| <= |text|
  {
    match Find(text, START)
    case None => Missing
    case Some(s) =>
      match Find(text[s..], END)
      case None => Orphan(s)
      case Some(e) => Paired(s, s + e)
  }

  function Separator(text: string): string {
    if text != "" && text[|text| - 1] != '\n' then "\n" else ""
  }

  /** The text in front of the block `Write` puts down, and the text behind it. */
  function BeforeBlock(file: Option<string>): string {
    if file.None? then ""
    else
      var text := file.value;
      match Locate(text)
      case Paired(s, _) => text[..s]
      case _ => text + Separator(text)
  }

  function AfterBlock(file: Option<string>): string {
    if file.None? then ""
    else
      match Locate(file.value)
      case Paired(_, e) => Behind(file.value[e + |END|..])
      case _ => ""
  }

  /** What is kept of the text behind a section: one leading newline goes, and unless
      that was all, one comes back. */
  function Behind(after: string): string {
    if TrimOne(after) == "" then "" else "\n" + TrimOne(after)
  }

  function Write(file: Option<string>, content: string): string {
    BeforeBlock(file) + Block(content) + AfterBlock(file)
  }

  /** The search of read: the end marker from behind the start marker on. */
  function Read(text: string): string {
    match Find(text, START)
    case None => ""
    case Some(s) =>
      var from := s + |START|;
      match Find(text[from..], END)
      case None => ""
      case Some(e) => TrimSpace(RemoveAll(text[from..from + e], NOTICE))
  }

  datatype Removal = Untouched | Emptied | Kept(text: string)

  /** What removal leaves of the text before and behind a section. */
  function Join(before: string, after: string): Removal {
    var combined :=
      if before == "" then after
      else if after != "" then before + "\n\n" + after
      else before + "\n";
    if TrimSpace(combined) == "" then Emptied else Kept(combined)
  }

  function Remove(text: string): Removal {
    match Locate(text)
    case Paired(s, e) => Join(TrimRight(text[..s], IsNewline), TrimLeft(text[e + |END|..], IsNewline))
    case _ => Untouched
  }

  // ----- The markers -----

  lemma NoticeStart()
    ensures '\n' !in NOTICE_A && '<' !in NOTICE_A[1..] && |NOTICE_A| == 19 && NOTICE_A[0] == '<'
  {
  }

  lemma NoticeRest()
    ensures '\n' !in NOTICE_B && '<' !in NOTICE_B && |NOTICE_B| == 19
    ensures '\n' !in NOTICE_C && '<' !in NOTICE_C && |NOTICE_C| == 27
  {
  }

  lemma NoticeFacts()
    ensures '\n' !in NOTICE && '<' !in NOTICE[1..] && |NOTICE| == 65 && NOTICE[0] == '<'
  {
    hide NOTICE_A, NOTICE_B, NOTICE_C;
    NoticeStart();
    NoticeRest();
    assert NOTICE[1..] == NOTICE_A[1..] + NOTICE_B + NOTICE_C;
  }

  /** No marker holds a newline, and each opens with its only '<'. */
  lemma Markers()
    ensures '\n' !in START && '\n' !in NOTICE && '\n' !in END
    ensures '<' !in START[1..] && '<' !in NOTICE[1..] && '<' !in END[1..]
    ensures |START| == 21 && |NOTICE| == 65 && |END| == 19 && START[0] == NOTICE[0] == END[0] == '<'
  {
    NoticeFacts();
    hide NOTICE;
  }

  lemma NoEndInside()
    ensures !Contains(START, END) && !Contains(NOTICE, END)
  {
    Markers();
    assert START[12] == 's' && END[12] == 'e' && END[5] == 'n';
    assert NOTICE[5] == NOTICE_A[5] == 'D';
    forall i ensures !At(START, END, i) {
      if At(START, END, i) { AtChar(START, END, i, 0); AtChar(START, END, i, 12); }
    }
    forall i ensures !At(NOTICE, END, i) {
      if At(NOTICE, END, i) { AtChar(NOTICE, END, i, 0); AtChar(NOTICE, END, i, 5); }
    }
  }

  // ----- Finding the section again -----

  /** Where the first end marker behind a block's start is: inside the content if the
      content holds one, else the block's own. */
  function EndOffset(content: string): nat {
    |START| + |LEAD| + match Find(content, END) case Some(e) => e case None => |content| + 2
  }

  lemma ContentEnd(content: string, tail: string)
    ensures Find(content + FOOT + tail, END)
         == Some(match Find(content, END) case Some(e) => e case None => |content| + 2)
  {
    Markers();
    hide Find, START, NOTICE, END;
    var rest := END + ("\n" + tail);
    var text := content + FOOT + tail;
    assert FOOT + tail == "\n\n" + rest;
    assert text == content + (FOOT + tail);
    if Find(content, END).Some? {
      FindLeft(content, "\n\n" + rest, END);
    } else {
      assert text == content + "\n" + ("\n" + rest);
      assert "\n" + rest == "" + "\n" + rest;
      assert !Contains("", END);
      FindLine("", rest, END);
      FindLine(content, "\n" + rest, END);
      FindAtFront(END, "\n" + tail);
    }
  }

  lemma NoneInNothing()
    ensures !Contains("", END)
  {
    hide START, NOTICE, END;
    Markers();
  }

  lemma BlockEnd(content: string, tail: string)
    ensures Find(Block(content) + tail, END) == Some(EndOffset(content))
  {
    hide Find, START, NOTICE, END, Contains, FOOT, LEAD;
    Markers();
    NoEndInside();
    var inner := content + FOOT + tail;
    ContentEnd(content, tail);
    LeadEnd(inner);
    assert Block(content) + tail == START + (LEAD + inner);
  }

  /** The start marker and the lines up to the content hold no end marker. */
  lemma LeadEnd(inner: string)
    requires Find(inner, END).Some?
    ensures Find(START + (LEAD + inner), END) == Some(|START| + |LEAD| + Find(inner, END).value)
  {
    hide Find, START, NOTICE, END, Contains;
    Markers();
    NoEndInside();
    NoneInNothing();
    var blank := "\n" + inner;
    assert blank == "" + "\n" + inner;
    FindLine("", inner, END);
    FindLine(NOTICE, blank, END);
    var line := NOTICE + "\n" + blank;
    FindLine(START, line, END);
    assert LEAD + inner == "\n" + line;
    assert START + ("\n" + line) == START + "\n" + line;
  }

  /** Behind text without a start marker, a block is found where it was put. */
  lemma LocateBlock(before: string, content: string, tail: string)
    requires !Contains(before, START)
    ensures Locate(before + Block(content) + tail) == Paired(|before|, |before| + EndOffset(content))
  {
    Markers();
    BlockEnd(content, tail);
    hide Find, START, NOTICE, END;
    var rest := LEAD + content + FOOT + tail;
    assert Block(content) + tail == START + rest;
    hide Block, LEAD, FOOT;
    FindSkip(before, START + rest, START);
    FindAtFront(START, rest);
    assert before + Block(content) + tail == before + (Block(content) + tail);
  }

  ghost predicate Sectioned(file: Option<string>) {
    file.Some? ==> !Locate(file.value).Orphan?
  }

  lemma BeforeIsFree(file: Option<string>)
    requires Sectioned(file)
    ensures !Contains(BeforeBlock(file), START)
  {
    Markers();
    hide START, NOTICE, END;
    if file.Some? {
      var text := file.value;
      match Find(text, START)
      case Some(s) =>
        assert text == text[..s] + text[s..];
        forall i ensures !At(text[..s], START, i) {
          if i + |START| <= s { AtLeft(text[..s], text[s..], START, i); }
        }
      case None =>
        if Separator(text) == "\n" {
          assert !Contains("", START);
          FindNone("", START);
          FindLine(text, "", START);
          assert text + "\n" + "" == text + "\n";
        } else {
          assert text + "" == text;
        }
    }
  }

  /** What the search means: the first start marker, and the first end marker from it on. */
  lemma LocateExactly(text: string)
    ensures Locate(text).Missing? <==> !Contains(text, START)
    ensures forall s: nat :: Locate(text) == Orphan(s) <==> FirstAt(text, START, 0, s) && !Contains(text[s..], END)
    ensures forall s: nat, e: nat ::
      Locate(text) == Paired(s, e) <==> FirstAt(text, START, 0, s) && FirstAt(text, END, s, e)
  {
    hide START, NOTICE, END, Find;
    MarkerFacts();
    var start := Find(text, START);
    forall s: nat | FirstAt(text, START, 0, s) ensures start == Some(s) {
      FindIs(text, START, s);
    }
    if start.Some? {
      EndExactly(text, start.value);
    }
  }

  /** `p` occurs in `s` at `i`, and nowhere from `from` up to there. */
  ghost predicate FirstAt(s: string, p: string, from: nat, i: nat) {
    from <= i && At(s, p, i) && forall j | from <= j < i :: !At(s, p, j)
  }

  lemma EndExactly(text: string, s: nat)
    requires s < |text|
    ensures forall e: nat :: FirstAt(text, END, s, e) <==> s <= e && Find(text[s..], END) == Some(e - s)
  {
    hide START, NOTICE, END, Find;
    MarkerFacts();
    var found := Find(text[s..], END);
    assert text == text[..s] + text[s..];
    forall e: nat ensures FirstAt(text, END, s, e) <==> s <= e && found == Some(e - s) {
      if FirstAt(text, END, s, e) || (s <= e && found == Some(e - s)) {
        forall j | s <= j <= e ensures At(text, END, j) <==> At(text[s..], END, j - s) {
          AtRight(text[..s], text[s..], END, j);
        }
        forall j: int | j < 0 ensures !At(text[s..], END, j) {}
        if FirstAt(text, END, s, e) {
          forall i: nat | i < e - s ensures !At(text[s..], END, i) {
            assert At(text, END, s + i) <==> At(text[s..], END, s + i - s);
          }
          FindIs(text[s..], END, e - s);
        }
      }
    }
  }

  // ----- Reading what was written -----

  lemma EndFromStart(rest: string)
    ensures Find(START + rest, END) == match Find(rest, END) case None => None case Some(e) => Some(|START| + e)
  {
    Markers();
    hide START, NOTICE, END, Find, At;
    forall i | i < |START| ensures !At(START + rest, END, i) { EndBehindStart(rest, i); }
    FindShift(START, rest, END);
  }

  /** Write and read search for the end marker from different places and find the same one. */
  lemma SameSection(text: string)
    requires Find(text, START).Some?
    ensures var s := Find(text, START).value;
            var from := Find(text[s + |START|..], END);
            Locate(text) == if from.None? then Orphan(s) else Paired(s, s + |START| + from.value)
  {
    hide START, NOTICE, END, Find;
    MarkerFacts();
    var s := Find(text, START).value;
    assert text[s..] == START + text[s + |START|..];
    EndFromStart(text[s + |START|..]);
  }

  lemma EndBehindStart(rest: string, i: int)
    requires i < |START|
    ensures !At(START + rest, END, i)
  {
    Markers();
    assert START[12] == 's' && END[12] == 'e';
    assert 1 <= i ==> START[i] == START[1..][i - 1];
    if At(START + rest, END, i) {
      AtChar(START + rest, END, i, 0);
      AtChar(START + rest, END, i, 12);
    }
  }

  /** What a reader can get back of a content: nothing from an end marker on. */
  function Readable(content: string): string {
    match Find(content, END) case Some(e) => content[..e] case None => content
  }

  /** A written block as start marker, readable part and what follows it. */
  lemma BlockParts(content: string, tail: string) returns (y: string)
    ensures Block(content) + tail
         == START + (LEAD + (Readable(content) + Gap(content))) + y
  {
    var x := Readable(content) + Gap(content);
    var z := content + FOOT + tail;
    Markers();
    hide START, NOTICE, END, Find;
    y := z[|x|..];
    assert z == x + y;
    hide LEAD, FOOT, Readable, Gap;
    assert Block(content) + tail == START + LEAD + z;
    assert START + LEAD + (x + y) == START + (LEAD + x) + y;
  }

  /** The blank line `Write` puts before its own end marker, when that is the one found. */
  function Gap(content: string): string {
    if Find(content, END).None? then "\n\n" else ""
  }

  lemma InnerText(before: string, content: string, tail: string)
    ensures var text := before + Block(content) + tail;
            && |before| + EndOffset(content) <= |text|
            && text[|before| + |START|..|before| + EndOffset(content)]
            == LEAD + (Readable(content) + Gap(content))
  {
    Markers();
    var y := BlockParts(content, tail);
    var m := LEAD + (Readable(content) + Gap(content));
    assert |m| == EndOffset(content) - |START|;
    var text := before + Block(content) + tail;
    hide START, NOTICE, END, Find, Block, EndOffset, Readable, Gap;
    assert text == before + (Block(content) + tail);
    assert text == (before + START) + m + y;
    Middle(before + START, m, y);
  }

  lemma StripNotice(x: string)
    ensures TrimSpace(RemoveAll(LEAD + x, NOTICE)) == TrimSpace(RemoveAll(x, NOTICE))
  {
    Markers();
    hide START, NOTICE, END, Find;
    var inner := LEAD + x;
    var rest := "\n\n" + x;
    assert inner == "\n" + (NOTICE + rest) == "" + "\n" + (NOTICE + rest);
    assert !Contains("", NOTICE);
    FindLine("", NOTICE + rest, NOTICE);
    FindAtFront(NOTICE, rest);
    assert inner[1 + |NOTICE|..] == rest && inner[..1] == "\n";
    assert RemoveAll(inner, NOTICE) == "\n" + RemoveAll(rest, NOTICE);
    RemoveAllPrefix(x, NOTICE);
    var y := RemoveAll(x, NOTICE);
    TrimSpaceOuter(y);
    TrimSpaceOuter("\n" + y);
    TrimSpaceOuter("\n\n" + y);
    assert "\n\n" + y == "\n" + ("\n" + y);
  }

  lemma StripAll(content: string)
    ensures TrimSpace(RemoveAll(LEAD + (Readable(content) + Gap(content)), NOTICE))
         == TrimSpace(RemoveAll(Readable(content), NOTICE))
  {
    Markers();
    var x := Readable(content);
    hide START, NOTICE, END, Find, RemoveAll, TrimSpace;
    StripNotice(x + Gap(content));
    if Gap(content) == "" {
      assert x + "" == x;
    } else {
      RemoveAllSuffix(x, NOTICE);
      var y := RemoveAll(x, NOTICE);
      TrimSpaceOuter(y);
      TrimSpaceOuter(y + "\n");
      assert y + "\n\n" == y + "\n" + "\n";
    }
  }

  lemma ReadLocated(text: string, s: nat, e: nat)
    requires Locate(text) == Paired(s, e)
    ensures s + |START| <= e && Read(text) == TrimSpace(RemoveAll(text[s + |START|..e], NOTICE))
  {
    hide START, NOTICE, END, Find, RemoveAll, TrimSpace, Locate;
    MarkerFacts();
    HasStart(text);
    SameSection(text);
  }

  /** Without a whole section there is nothing to read; of one, what stands between the markers,
      less notices and outer white space. */
  lemma ReadExactly(text: string)
    ensures match Locate(text)
            case Paired(s, e) =>
              s + |START| <= e && Read(text) == TrimSpace(RemoveAll(text[s + |START|..e], NOTICE))
            case _ => Read(text) == ""
  {
    hide START, NOTICE, END, Find, RemoveAll, TrimSpace;
    MarkerFacts();
    if Find(text, START).Some? { SameSection(text); }
  }

  lemma HasStart(text: string)
    ensures Locate(text).Paired? ==> Find(text, START).Some?
  {
    hide START, NOTICE, END, Find;
  }

  /** Reading after writing, for every content and every file without an orphan start
      marker: the content up to any end marker in it, less notices, trimmed. */
  lemma ReadAfterWrite(file: Option<string>, content: string)
    requires Sectioned(file)
    ensures Read(Write(file, content)) == TrimSpace(RemoveAll(Readable(content), NOTICE))
  {
    hide START, NOTICE, END, Find, RemoveAll, TrimSpace, Read, Block, LEAD, FOOT, Locate, EndOffset, Readable,
         BeforeBlock, AfterBlock;
    var before, tail := BeforeBlock(file), AfterBlock(file);
    BeforeIsFree(file);
    LocateBlock(before, content, tail);
    InnerText(before, content, tail);
    ReadLocated(before + Block(content) + tail, |before|, |before| + EndOffset(content));
    StripAll(content);
  }

  // ----- Writing again -----

  lemma BlockTail(content: string, tail: string)
    ensures |Block(content) + tail| >= EndOffset(content) + |END|
    ensures Find(content, END).None? ==> (Block(content) + tail)[EndOffset(content) + |END|..] == "\n" + tail
    ensures Find(content, END).Some? ==> |(Block(content) + tail)[EndOffset(content) + |END|..]| >= |tail| + 2
  {
    Markers();
    hide START, NOTICE, END;
    if Find(content, END).None? {
      assert FOOT == "\n\n" + END + "\n";
      var a := START + LEAD + content + "\n\n" + END;
      assert |a| == EndOffset(content) + |END|;
      hide LEAD;
      assert Block(content) + tail == a + ("\n" + tail);
    }
  }

  lemma BehindIs(t: string)
    ensures Behind("\n" + t) == if t == "" then "" else "\n" + t
    ensures |Behind(t)| + 1 >= |t|
    ensures Behind(t) == "" <==> t == "" || t == "\n"
  {
    assert ("\n" + t)[1..] == t;
    if t != "" { assert t == [t[0]] + t[1..]; }
  }

  lemma AroundLocated(text: string, s: nat, e: nat)
    requires Locate(text) == Paired(s, e)
    ensures BeforeBlock(Some(text)) == text[..s]
    ensures AfterBlock(Some(text)) == Behind(text[e + |END|..])
  {
    hide START, NOTICE, END, Find, Locate, Behind;
  }

  /** Where a block lies in a file that was put together around it. */
  lemma BlockAround(before: string, content: string, tail: string)
    requires !Contains(before, START)
    ensures var g, n := before + Block(content) + tail, EndOffset(content);
            && Locate(g) == Paired(|before|, |before| + n) && g[..|before|] == before
            && |Block(content) + tail| >= n + |END|
            && g[|before| + n + |END|..] == (Block(content) + tail)[n + |END|..]
  {
    hide START, NOTICE, END, LEAD, FOOT, Find, Block, EndOffset, Locate, Contains;
    BlockTail(content, tail);
    LocateBlock(before, content, tail);
    assert before + Block(content) + tail == before + (Block(content) + tail);
  }

  /** What a second write finds around the block a first one left. */
  lemma Rewritten(file: Option<string>, content: string)
    requires Sectioned(file)
    ensures var g := Some(Write(file, content));
      && Sectioned(g) && Locate(g.value).Paired?
      && BeforeBlock(g) == BeforeBlock(file)
      && (Find(content, END).None? ==> AfterBlock(g) == if AfterBlock(file) == "" then "" else "\n" + AfterBlock(file))
      && (Find(content, END).Some? ==> |AfterBlock(g)| > |AfterBlock(file)|)
  {
    hide START, NOTICE, END, LEAD, FOOT, Find, Block, EndOffset, Locate, BeforeBlock, AfterBlock, Behind, Contains;
    var before, tail := BeforeBlock(file), AfterBlock(file);
    BeforeIsFree(file);
    BlockTail(content, tail);
    BlockAround(before, content, tail);
    var n := EndOffset(content);
    AroundLocated(before + Block(content) + tail, |before|, |before| + n);
    BehindIs(tail);
    BehindIs((Block(content) + tail)[n + |END|..]);
  }

  /** Nothing but at most one newline behind the section, and no lone start marker. */
  ghost predicate Settled(file: Option<string>) {
    file.Some? ==>
      match Locate(file.value)
      case Missing => true
      case Orphan(_) => false
      case Paired(_, e) => var after := file.value[e + |END|..]; after == "" || after == "\n"
  }

  lemma SettledIs(file: Option<string>)
    ensures Settled(file) <==> Sectioned(file) && AfterBlock(file) == ""
  {
    hide START, NOTICE, END, Find, Behind;
    if file.Some? && Locate(file.value).Paired? {
      BehindIs(file.value[Locate(file.value).end + |END|..]);
    }
  }

  /** Markers() once more, for callers that do not look at the texts. */
  lemma MarkerFacts()
    ensures |START| > 0 && |END| > 0 && '\n' !in END && END[0] !in END[1..] && START[0] == END[0]
  {
    Markers();
  }

  lemma BlockFirst(content: string)
    ensures Block(content) != "" && Block(content)[0] == END[0]
    ensures Find(Block(content), END) == Some(EndOffset(content))
  {
    Markers();
    BlockEnd(content, "");
    assert Block(content) + "" == Block(content);
  }

  lemma OrphanIs(text: string, s: nat)
    requires Locate(text) == Orphan(s)
    ensures Find(text, START) == Some(s) && s < |text| && Find(text[s..], END) == None && !Contains(text[s..], END)
  {
    hide START, NOTICE, END, Find, Contains;
    MarkerFacts();
  }

  lemma OrphanEnd(text: string, content: string, s: nat)
    requires Locate(text) == Orphan(s)
    ensures s < |text|
    ensures Find(text[s..] + Separator(text) + Block(content), END)
         == Some(|text[s..] + Separator(text)| + EndOffset(content))
  {
    hide START, NOTICE, END, LEAD, FOOT, Block, EndOffset, Find, Locate, Contains;
    MarkerFacts();
    OrphanIs(text, s);
    BlockFirst(content);
    var d := text[s..];
    if Separator(text) == "" {
      assert d + "" == d;
      FindSkip(d, Block(content), END);
    } else {
      FindLine(d, Block(content), END);
    }
  }

  lemma OrphanWrite(text: string, content: string)
    requires Locate(text).Orphan?
    ensures Write(Some(text), content) == text + Separator(text) + Block(content)
  {
    hide START, NOTICE, END, LEAD, FOOT, Block, Separator, Find;
    assert text + Separator(text) + Block(content) + "" == text + Separator(text) + Block(content);
  }

  lemma LocatedAt(text: string, s: nat, e: nat)
    requires Find(text, START) == Some(s) && Find(text[s..], END) == Some(e)
    ensures Locate(text) == Paired(s, s + e)
  {
  }

  /** With a lone start marker the second write finds a section from it to the block's end. */
  lemma OrphanLocate(text: string, content: string, s: nat)
    requires Locate(text) == Orphan(s)
    ensures s < |text|
    ensures Locate(text + Separator(text) + Block(content)) == Paired(s, |text + Separator(text)| + EndOffset(content))
    ensures Find((text + Separator(text) + Block(content))[s..], END)
        == Some(|text + Separator(text)| - s + EndOffset(content))
  {
    hide START, NOTICE, END, LEAD, FOOT, Block, EndOffset, Separator, Find, Locate;
    MarkerFacts();
    OrphanIs(text, s);
    OrphanEnd(text, content, s);
    var sep := Separator(text);
    var g := text + sep + Block(content);
    assert g == text + (sep + Block(content));
    FindLeft(text, sep + Block(content), START);
    assert g[s..] == text[s..] + sep + Block(content);
    LocatedAt(g, s, |text[s..] + sep| + EndOffset(content));
  }

  lemma OrphanRewrite(text: string, content: string)
    requires Locate(text).Orphan?
    ensures Write(Some(Write(Some(text), content)), content) != Write(Some(text), content)
  {
    hide START, NOTICE, END, LEAD, FOOT, Block, EndOffset, Separator, Find, Locate, BeforeBlock, AfterBlock;
    var s, sep := Locate(text).start, Separator(text);
    OrphanWrite(text, content);
    var g := text + sep + Block(content);
    OrphanLocate(text, content, s);
    AroundLocated(g, s, |text + sep| + EndOffset(content));
    var tail := AfterBlock(Some(g));
    BlockEnd(content, tail);
    assert g[..s] + Block(content) + tail == g[..s] + (Block(content) + tail);
    DropPrefix(g[..s], Block(content) + tail);
  }

  /** The comment on `WriteManagedSection` promises idempotence.  It holds exactly when the
      content holds no end marker and the file is settled: no lone start marker, and at
      most one newline behind the section. */
  lemma IdempotentWhen(file: Option<string>, content: string)
    ensures Write(Some(Write(file, content)), content) == Write(file, content)
       <==> Find(content, END).None? && Settled(file)
  {
    SettledIs(file);
    if Sectioned(file) {
      Rewritten(file, content);
      var g := Some(Write(file, content));
      var before, tail, tail' := BeforeBlock(file), AfterBlock(file), AfterBlock(g);
      hide START, NOTICE, END, LEAD, FOOT, Block, Find, Locate, BeforeBlock, AfterBlock;
      assert Write(g, content) == before + Block(content) + tail';
    } else {
      OrphanRewrite(file.value, content);
    }
  }

  // ----- Any number of writes, then removal -----

  function WriteAll(file: Option<string>, contents: seq<string>): (r: Option<string>)
    ensures file.Some? || contents != [] ==> r.Some?
    decreases |contents|
  {
    if contents == [] then file else WriteAll(Some(Write(file, contents[0])), contents[1..])
  }

  lemma NewlinesShift(k: nat, t: string)
    ensures Newlines(k) + ("\n" + t) == Newlines(k + 1) + t
  {
  }

  /** k writes keep the text before the section byte for byte; behind the last block, unless
      nothing followed, stand k newlines and the text that followed less one newline. */
  lemma {:induction false} WritesGrow(file: Option<string>, contents: seq<string>)
    requires Sectioned(file) && contents != []
    requires forall c <- contents :: Find(c, END).None?
    ensures WriteAll(file, contents)
         == Some(BeforeBlock(file) + Block(contents[|contents| - 1])
                 + if AfterBlock(file) == "" then "" else Newlines(|contents| - 1) + AfterBlock(file))
    decreases |contents|
  {
    hide START, NOTICE, END, LEAD, FOOT, Block, Find, Locate, BeforeBlock, AfterBlock;
    var g := Some(Write(file, contents[0]));
    if |contents| == 1 {
      assert WriteAll(g, contents[1..]) == g;
      assert Newlines(0) + AfterBlock(file) == AfterBlock(file);
    } else {
      Rewritten(file, contents[0]);
      assert forall c <- contents[1..] :: c in contents;
      WritesGrow(g, contents[1..]);
      NewlinesShift(|contents| - 2, AfterBlock(file));
    }
  }

  lemma RemoveLocated(text: string, s: nat, e: nat)
    requires Locate(text) == Paired(s, e)
    ensures Remove(text) == Join(TrimRight(text[..s], IsNewline), TrimLeft(text[e + |END|..], IsNewline))
  {
    hide START, NOTICE, END, Find, Locate, Join, TrimLeft, TrimRight;
  }

  /** What stands before a section less the newlines before it, and what stands behind it less
      the newlines behind it. */
  ghost predicate Around(text: string, s: nat, e: nat, u: string, v: string) {
    s <= |text| && e + |END| <= |text| && LessTrailing(text[..s], u) && LessLeading(text[e + |END|..], v)
  }

  /** What removal leaves, said of the text alone: the two parts around the section with a
      blank line between them, or nothing when that is only white space. */
  lemma RemoveLeaves(text: string, s: nat, e: nat, u: string, v: string)
    requires Locate(text) == Paired(s, e) && Around(text, s, e, u, v)
    ensures var kept := u + (if u == "" then "" else if v == "" then "\n" else "\n\n") + v;
            Remove(text) == if Blank(kept) then Emptied else Kept(kept)
  {
    hide START, NOTICE, END, Find, Locate, TrimLeft, TrimRight, TrimSpace, Blank;
    RemoveLocated(text, s, e);
    TrimRightIs(text[..s], u);
    TrimLeftIs(text[e + |END|..], v);
    var kept := u + (if u == "" then "" else if v == "" then "\n" else "\n\n") + v;
    assert u == "" ==> kept == v;
    assert v == "" && u != "" ==> kept == u + "\n";
    TrimSpaceBlank(kept);
  }

  /** Removal behind text without a start marker sees through the newlines a write adds. */
  lemma RemoveBlock(before: string, content: string, k: nat, rest: string)
    requires !Contains(before, START) && Find(content, END).None?
    ensures Remove(before + Block(content) + (Newlines(k) + rest))
         == Join(TrimRight(before, IsNewline), TrimLeft(rest, IsNewline))
  {
    hide START, NOTICE, END, LEAD, FOOT, Block, Find, Locate, EndOffset, Remove, Join, TrimRight, TrimLeft, Contains;
    var tail := Newlines(k) + rest;
    LocateBlock(before, content, tail);
    BlockTail(content, tail);
    var b := Block(content) + tail;
    var g, n := before + Block(content) + tail, EndOffset(content);
    RemoveLocated(g, |before|, |before| + n);
    assert g == before + b;
    assert g[..|before|] == before;
    assert g[|before| + n + |END|..] == b[n + |END|..];
    assert "\n" + tail == Newlines(k + 1) + rest;
    TrimLeftNewlines(k + 1, rest);
  }

  lemma TrimLeftBehind(t: string)
    ensures TrimLeft(Behind(t), IsNewline) == TrimLeft(t, IsNewline)
  {
    BehindIs(t);
    if t != "" { assert t == [t[0]] + t[1..]; }
    if Behind(t) != "" { assert Behind(t)[1..] == TrimOne(t); }
  }

  lemma LastIsFree(contents: seq<string>)
    requires contents != [] && forall c <- contents :: Find(c, END).None?
    ensures Find(contents[|contents| - 1], END).None?
  {
    assert contents[|contents| - 1] in contents;
  }

  lemma WritesNormal(file: Option<string>, contents: seq<string>) returns (k: nat)
    requires Sectioned(file) && contents != [] && forall c <- contents :: Find(c, END).None?
    ensures WriteAll(file, contents)
        == Some(BeforeBlock(file) + Block(contents[|contents| - 1]) + (Newlines(k) + AfterBlock(file)))
  {
    hide START, NOTICE, END, LEAD, FOOT, Block, Find, Locate, BeforeBlock, AfterBlock, WriteAll;
    WritesGrow(file, contents);
    assert Newlines(0) + "" == "";
    k := if AfterBlock(file) == "" then 0 else |contents| - 1;
  }

  /** Removing after any number of writes leaves what removing from the original leaves. */
  lemma RemoveAfterWrites(text: string, contents: seq<string>)
    requires Locate(text).Paired? && contents != [] && forall c <- contents :: Find(c, END).None?
    ensures Remove(WriteAll(Some(text), contents).value) == Remove(text)
  {
    hide START, NOTICE, END, LEAD, FOOT, Block, Find, Locate, BeforeBlock, AfterBlock, Remove, Join, TrimLeft,
         TrimRight, WriteAll, Contains;
    var file := Some(text);
    var Paired(s, e) := Locate(text);
    LastIsFree(contents);
    var k := WritesNormal(file, contents);
    BeforeIsFree(file);
    RemoveBlock(BeforeBlock(file), contents[|contents| - 1], k, AfterBlock(file));
    AroundLocated(text, s, e);
    RemoveLocated(text, s, e);
    TrimLeftBehind(text[e + |END|..]);
  }

  lemma TrimRightSeparator(text: string)
    ensures TrimRight(text + Separator(text), IsNewline) == TrimRight(text, IsNewline)
  {
    if Separator(text) == "" {
      assert text + "" == text;
    } else {
      assert (text + "\n")[..|text|] == text;
    }
  }

  lemma JoinNothing(u: string)
    ensures Join(u, "") == if Blank(u) then Emptied else Kept(u + "\n")
  {
    hide TrimSpace;
    TrimSpaceBlank(u);
    TrimSpaceOuter(u);
  }

  /** On a file without a section, removing undoes writing up to trailing newlines: of text
      that is not all white space, the text with one newline at its end. */
  lemma RemoveUndoesWrites(text: string, contents: seq<string>, u: string)
    requires Locate(text).Missing? && contents != [] && forall c <- contents :: Find(c, END).None?
    requires LessTrailing(text, u)
    ensures Remove(WriteAll(Some(text), contents).value) == if Blank(u) then Emptied else Kept(u + "\n")
  {
    hide START, NOTICE, END, LEAD, FOOT, Block, Find, Remove, Join, TrimRight, WriteAll, Contains;
    TrimRightIs(text, u);
    JoinNothing(u);
    var file := Some(text);
    LastIsFree(contents);
    var k := WritesNormal(file, contents);
    BeforeIsFree(file);
    RemoveBlock(BeforeBlock(file), contents[|contents| - 1], k, AfterBlock(file));
    TrimRightSeparator(text);
  }

  /** What a write leaves, said of the old text alone: the block on lines of its own at the
      end, or in place of the section with what stood behind it on the next line. */
  ghost predicate WrittenInto(was: Option<string>, content: string, now: Option<string>) {
    var block := START + "\n" + NOTICE + "\n\n" + content + "\n\n" + END + "\n";
    match was
    case None => now == Some(block)
    case Some(t) =>
      match Locate(t)
      case Paired(s, e) =>
        var behind := t[e + |END|..];
        now == Some(t[..s] + block + if behind == "" || behind == "\n" then ""
                                     else if behind[0] == '\n' then behind
                                     else "\n" + behind)
      case _ => now == Some(t + (if t == "" || t[|t| - 1] == '\n' then "" else "\n") + block)
  }

  lemma WriteInto(file: Option<string>, content: string)
    ensures WrittenInto(file, content, Some(Write(file, content)))
  {
    BlockText(content);
    hide START, NOTICE, END, LEAD, FOOT, Find, Locate, Block;
    var block := Block(content);
    if file.None? {
      assert "" + block + "" == block;
    } else {
      var t := file.value;
      match Locate(t)
      case Paired(s, e) =>
        var behind := t[e + |END|..];
        if behind != "" && behind[0] == '\n' { assert behind == "\n" + behind[1..]; }
      case _ =>
        assert t + Separator(t) + block + "" == t + Separator(t) + block;
    }
  }

  lemma WriteFirst(content: string)
    ensures Write(None, content) == Block(content)
  {
    hide Block;
    assert "" + Block(content) + "" == Block(content);
  }

  /** The two ways the file is put together. */
  lemma Assembled(text: string, content: string)
    ensures var w := Write(Some(text), content);
            match Locate(text)
            case Paired(s, e) =>
              var behind := TrimOne(text[e + |END|..]);
              w == text[..s] + Block(content) + if behind == "" then "" else "\n" + behind
            case _ => w == text + Separator(text) + Block(content)
  {
    hide START, NOTICE, END, LEAD, FOOT, Find, Locate, Block, Separator;
    assert text + Separator(text) + Block(content) + "" == text + Separator(text) + Block(content);
  }

  lemma BlockText(content: string)
    ensures Block(content) == START + "\n" + NOTICE + "\n\n" + content + "\n\n" + END + "\n"
  {
    hide START, NOTICE, END;
    assert START + "\n" + NOTICE + "\n\n" == START + ("\n" + NOTICE + "\n\n");
    var head := START + LEAD + content;
    assert head + ("\n\n" + END + "\n") == head + "\n\n" + END + "\n";
  }

  // ----- The file the three operations work on -----

  /** A markdown file.  `readable` and `writable` are the outcomes of the I/O calls; a
      failed write leaves the file as it was. */
  class MarkdownFile {
    var text: Option<string>

    constructor (text: Option<string>)
      ensures this.text == text
    {
      this.text := text;
    }

    method WriteManagedSection(content: string, readable: bool, writable: bool) returns (ok: bool)
      modifies this
      ensures ok == (writable && (readable || old(text).None?))
      ensures text == if ok then Some(Write(old(text), content)) else old(text)
      ensures ok ==> WrittenInto(old(text), content, text)
    {
      hide START, NOTICE, END, LEAD, FOOT, Find, Block, Locate, WrittenInto, Write;
      WriteInto(text, content);
      var block := Block(content);
      if text.None? {
        WriteFirst(content);
        if writable { text := Some(block); }
        return writable;
      }
      if !readable || !writable {
        return false;
      }
      var existing := text.value;
      Assembled(existing, content);
      match Locate(existing) {
        case Paired(start, end) =>
          var before, after := existing[..start], existing[end + |END|..];
          if after != "" && after[0] == '\n' {
            after := after[1..];
          }
          var b := before + block;
          if after != "" {
            b := b + "\n";
            b := b + after;
          }
          assert b == before + block + if after == "" then "" else "\n" + after;
          text := Some(b);
        case _ =>
          var sep := "";
          if |existing| > 0 && existing[|existing| - 1] != '\n' {
            sep := "\n";
          }
          text := Some(existing + sep + block);
      }
      return true;
    }

    method RemoveManagedSection(readable: bool, writable: bool) returns (removed: bool, emptied: bool, ok: bool)
      modifies this
      ensures old(text).None? ==> ok && !removed && !emptied && text == old(text)
      ensures old(text).Some? && readable && writable ==>
        && ok
        && removed == !Remove(old(text).value).Untouched? && emptied == Remove(old(text).value).Emptied?
        && text == (match Remove(old(text).value)
                    case Untouched => old(text)
                    case Emptied => Some("")
                    case Kept(t) => Some(t))
      ensures old(text).Some? && !(readable && writable) ==>
        && !removed && !emptied && text == old(text)
        && ok == (readable && Remove(old(text).value).Untouched?)
      ensures old(text).Some? && !Locate(old(text).value).Paired? ==>
        !removed && !emptied && ok == readable && text == old(text)
      ensures old(text).Some? && readable && writable && Locate(old(text).value).Paired? ==>
        var Paired(s, e) := Locate(old(text).value);
        forall u, v | Around(old(text).value, s, e, u, v) ::
          var kept := u + (if u == "" then "" else if v == "" then "\n" else "\n\n") + v;
          removed && emptied == Blank(kept) && text == Some(if emptied then "" else kept)
    {
      hide START, NOTICE, END, LEAD, FOOT, Find, Locate, TrimLeft, TrimRight, TrimSpace;
      removed, emptied, ok := false, false, true;
      if text.None? {
        return;
      }
      if !readable {
        ok := false;
        return;
      }
      var existing := text.value;
      match Locate(existing) {
        case Missing =>
        case Orphan(_) =>
        case Paired(start, end) =>
          var after := TrimLeft(existing[end + |END|..], IsNewline);
          var before := TrimRight(existing[..start], IsNewline);
          if before != "" && after != "" {
            before := before + "\n\n";
          } else if before != "" {
            before := before + "\n";
          }
          var combined := before + after;
          assert before == "" ==> combined == after;
          assert after == "" ==> combined == before;
          if !writable {
            ok := false;
            return;
          }
          forall u, v | Around(existing, start, end, u, v)
            ensures before == u + (if u == "" then "" else if v == "" then "\n" else "\n\n") && after == v
          {
            TrimRightIs(existing[..start], u);
            TrimLeftIs(existing[end + |END|..], v);
          }
          TrimSpaceBlank(combined);
          emptied := TrimSpace(combined) == "";
          text := Some(if emptied then "" else combined);
          removed := true;
      }
    }
  }
}
