/**
 The client's side of a turn's event stream: every frame is checked against the requested
 run and the next sequence number, and the channel ends with exactly one closing event.

 Reduction and the translation of an event that does not close the stream are the shared
 library's; they come in as functions.  Sequence numbers are unsigned 64-bit.
 */
module TurnEvents {
  import opened Common

  const WORD := 0x1_0000_0000_0000_0000

  datatype Verb = RunStart | RunFinish | RunError | RunAbort | Gap | Other(name: string)

  datatype Event = Event(version: int, verb: Verb, runId: string, number: nat, text: string)

  /** What the framing yields: a failed read, or a frame whose data may not decode. */
  datatype Frame = ReadFailed | Frame(id: string, event: string, data: Option<Event>)

  datatype Reason = BadRead | Malformed | GapSeen | BadCheckpoint | Unexpected | BadSequence | FromRun(text: string)
      | Cancelled | Ended

  datatype Shown = Note(text: string) | Failure(reason: Reason) | StreamEnd

  predicate Closing(s: Shown) {
    s.Failure? || s.StreamEnd?
  }

  function Digit(n: nat): char
    requires n < 10
  {
    "0123456789"[n]
  }

  function Decimal(n: nat): string {
    if n < 10 then [Digit(n)] else Decimal(n / 10) + [Digit(n % 10)]
  }

  /** The number a string of digits stands for. */
  function Reading(s: string): int {
    if s == "" then 0 else 10 * Reading(s[..|s| - 1]) + (s[|s| - 1] as int - '0' as int)
  }

  /** A sequence number is written in digits, without a leading zero, and reads back. */
  lemma {:induction false} DecimalReads(n: nat)
    ensures var s := Decimal(n);
            && s != "" && (forall c <- s :: '0' <= c <= '9') && Reading(s) == n
            && (s[0] == '0' ==> n == 0)
  {
    if n >= 10 { DecimalReads(n / 10); }
  }

  function VerbName(v: Verb): string {
    match v
    case RunStart => "run.start"
    case RunFinish => "run.finish"
    case RunError => "run.error"
    case RunAbort => "run.abort"
    case Gap => "gap"
    case Other(name) => name
  }

  /** The library's terminal events: the three that are shown as closing ones. */
  predicate Terminal(v: Verb) {
    v.RunFinish? || v.RunError? || v.RunAbort?
  }

  datatype Library<!M> = Library(schema: int, reduce: (Event, Option<M>) -> Option<M>,
                                 note: (Event, M) -> Option<string>)

  datatype Client<M> = Client(checkpoint: nat, message: Option<M>)

  datatype Step<M> = Accept(client: Client<M>, event: Event) | Refuse(reason: Reason)

  /** The checks on one frame, in their order. */
  function Check<M>(c: Client<M>, f: Frame, runId: string, lib: Library<M>): Step<M> {
    if f.ReadFailed? then Refuse(BadRead)
    else if f.data.None? || f.data.value.version != lib.schema || f.event != VerbName(f.data.value.verb)
        then Refuse(Malformed)
    else
      var e := f.data.value;
      if e.verb.Gap? then Refuse(GapSeen)
      else if f.id != Decimal(e.number) || e.number == 0 then Refuse(BadCheckpoint)
      else if e.runId != runId || e.number != (c.checkpoint + 1) % WORD || (c.checkpoint == 0 && !e.verb.RunStart?)
          then Refuse(Unexpected)
      else
        var m := lib.reduce(e, c.message);
        if m.None? then Refuse(BadSequence) else Accept(Client(e.number, m), e)
  }

  /** What an accepted event puts on the channel. */
  function Display<M>(e: Event, m: Option<M>, lib: Library<M>): seq<Shown> {
    match e.verb
    case RunFinish => [StreamEnd]
    case RunError => [Failure(FromRun(e.text))]
    case RunAbort => [Failure(Cancelled)]
    case RunStart => []
    case Gap => []
    case Other(_) =>
      if m.None? then []
      else
        var n := lib.note(e, m.value);
        if n.None? then [] else [Note(n.value)]
  }

  /** Everything the channel carries. */
  function Channel<M>(frames: seq<Frame>, c: Client<M>, runId: string, lib: Library<M>): seq<Shown> {
    if frames == [] then [Failure(Ended)]
    else
      match Check(c, frames[0], runId, lib)
      case Refuse(reason) => [Failure(reason)]
      case Accept(c', e) =>
        Display(e, c'.message, lib) + if Terminal(e.verb) then [] else Channel(frames[1..], c', runId, lib)
  }

  /** How many frames were accepted. */
  function Accepted<M>(frames: seq<Frame>, c: Client<M>, runId: string, lib: Library<M>): nat {
    if frames == [] then 0
    else
      match Check(c, frames[0], runId, lib)
      case Refuse(_) => 0
      case Accept(c', e) => 1 + if Terminal(e.verb) then 0 else Accepted(frames[1..], c', runId, lib)
  }

  const FRESH := 0

  /** The frame loop of `StreamEvents`. */
  method StreamEvents<M>(frames: seq<Frame>, runId: string, lib: Library<M>) returns (out: seq<Shown>)
    ensures out == Channel(frames, Client(FRESH, None), runId, lib)
  {
    var c := Client(FRESH, None);
    out := [];
    ghost var whole := Channel(frames, c, runId, lib);
    for n := 0 to |frames|
      invariant out + Channel(frames[n..], c, runId, lib) == whole
    {
      var step := Check(c, frames[n], runId, lib);
      assert frames[n..][1..] == frames[n + 1..];
      if step.Refuse? {
        out := out + [Failure(step.reason)];
        return;
      }
      c := step.client;
      out := out + Display(step.event, c.message, lib);
      if Terminal(step.event.verb) {
        return;
      }
    }
    out := out + [Failure(Ended)];
  }

  // ----- One closing event, and it is last -----

  ghost predicate ClosesOnce(out: seq<Shown>) {
    out != [] && forall i | 0 <= i < |out| :: Closing(out[i]) <==> i == |out| - 1
  }

  lemma DisplayCloses<M>(e: Event, m: Option<M>, lib: Library<M>)
    ensures Terminal(e.verb) ==> ClosesOnce(Display(e, m, lib))
    ensures !Terminal(e.verb) ==> forall i | 0 <= i < |Display(e, m, lib)| :: !Closing(Display(e, m, lib)[i])
  {
  }

  lemma {:induction false} ChannelClosesOnce<M>(frames: seq<Frame>, c: Client<M>, runId: string, lib: Library<M>)
    ensures ClosesOnce(Channel(frames, c, runId, lib))
    decreases |frames|
  {
    hide Check, Display, Terminal;
    if frames != [] {
      var step := Check(c, frames[0], runId, lib);
      if step.Accept? {
        DisplayCloses(step.event, step.client.message, lib);
        if Terminal(step.event.verb) {
          assert Display(step.event, step.client.message, lib) + [] == Display(step.event, step.client.message, lib);
        } else {
          ChannelClosesOnce(frames[1..], step.client, runId, lib);
        }
      }
    }
  }

  // ----- The accepted events are 1, 2, 3, ... of the run -----

  /** The frame is a well-formed event of the run with this number. */
  predicate Numbered(f: Frame, runId: string, schema: int, n: nat) {
    && f.Frame? && f.data.Some? && f.data.value.version == schema && f.event == VerbName(f.data.value.verb)
    && f.data.value.runId == runId && f.data.value.number == n && f.id == Decimal(n) && !f.data.value.verb.Gap?
    && (n == 1 ==> f.data.value.verb.RunStart?)
  }

  lemma CheckNumbers<M>(c: Client<M>, f: Frame, runId: string, lib: Library<M>)
    requires c.checkpoint < WORD && Check(c, f, runId, lib).Accept?
    ensures var step := Check(c, f, runId, lib);
            && c.checkpoint + 1 < WORD && Numbered(f, runId, lib.schema, c.checkpoint + 1)
            && step.client.checkpoint == c.checkpoint + 1 && step.event == f.data.value
  {
    hide Decimal, VerbName;
  }

  /** The accepted frames carry the next numbers one by one, none past the largest word;
      only the last of them can end the turn. */
  lemma {:induction false} AcceptedAreNumbered<M>(frames: seq<Frame>, c: Client<M>, runId: string, lib: Library<M>,
      i: nat)
    requires c.checkpoint < WORD && i < Accepted(frames, c, runId, lib)
    ensures i < |frames| && c.checkpoint + i + 1 < WORD && Numbered(frames[i], runId, lib.schema, c.checkpoint + i + 1)
    ensures i + 1 < Accepted(frames, c, runId, lib) ==> !Terminal(frames[i].data.value.verb)
    decreases i
  {
    hide Check, Numbered, Terminal;
    CheckNumbers(c, frames[0], runId, lib);
    if i > 0 {
      var step := Check(c, frames[0], runId, lib);
      AcceptedAreNumbered(frames[1..], step.client, runId, lib, i - 1);
    }
  }

  // ----- What is accepted, and what is shown of it -----

  /** The message the first `n` frames reduce to, as long as each of them does. */
  function Folded<M>(frames: seq<Frame>, n: nat, lib: Library<M>): Option<M>
    requires n <= |frames|
  {
    if n == 0 || frames[n - 1].ReadFailed? || frames[n - 1].data.None? then None
    else lib.reduce(frames[n - 1].data.value, Folded(frames, n - 1, lib))
  }

  /** Frame `i` is the next event of the run, and reduces. */
  ghost predicate Fits<M>(frames: seq<Frame>, i: nat, runId: string, lib: Library<M>)
    requires i < |frames|
  {
    i + 1 < WORD && Numbered(frames[i], runId, lib.schema, i + 1) && Folded(frames, i + 1, lib).Some?
  }

  /** The notes on the events of the first `n` frames, in order. */
  function Notes<M>(frames: seq<Frame>, n: nat, lib: Library<M>): seq<Shown>
    requires n <= |frames|
  {
    if n == 0 then []
    else Notes(frames, n - 1, lib) + NoteOn(frames[n - 1], Folded(frames, n, lib), lib)
  }

  /** Of an event whose verb is not of the run's own, what the library says of it. */
  function NoteOn<M>(f: Frame, m: Option<M>, lib: Library<M>): seq<Shown> {
    if f.Frame? && f.data.Some? && f.data.value.verb.Other? && m.Some? && lib.note(f.data.value, m.value).Some?
    then [Note(lib.note(f.data.value, m.value).value)]
    else []
  }

  /** A frame is accepted exactly when it is the next event of the run and reduces. */
  lemma CheckExactly<M>(c: Client<M>, f: Frame, runId: string, lib: Library<M>)
    requires c.checkpoint < WORD
    ensures Check(c, f, runId, lib).Accept? <==>
            && c.checkpoint + 1 < WORD && Numbered(f, runId, lib.schema, c.checkpoint + 1)
            && lib.reduce(f.data.value, c.message).Some?
    ensures Check(c, f, runId, lib).Accept? ==>
        Check(c, f, runId, lib).client == Client(c.checkpoint + 1, lib.reduce(f.data.value, c.message))
  {
    hide Decimal, VerbName;
  }

  /** A well-formed frame of a known version. */
  ghost predicate Formed(f: Frame, schema: int) {
    f.Frame? && f.data.Some? && f.data.value.version == schema && f.event == VerbName(f.data.value.verb)
  }

  /** Why a frame is refused: the first of these that is wrong with it. */
  lemma RefusedFor<M>(c: Client<M>, f: Frame, runId: string, lib: Library<M>)
    requires c.checkpoint < WORD && Check(c, f, runId, lib).Refuse?
    ensures match Check(c, f, runId, lib).reason
            case BadRead => f.ReadFailed?
            case Malformed => f.Frame? && !Formed(f, lib.schema)
            case GapSeen => Formed(f, lib.schema) && f.data.value.verb == Gap
            case BadCheckpoint =>
              Formed(f, lib.schema) && f.data.value.verb != Gap
              && (f.id != Decimal(f.data.value.number) || f.data.value.number == 0)
            case Unexpected =>
              Formed(f, lib.schema) && f.data.value.verb != Gap && f.id == Decimal(f.data.value.number)
              && f.data.value.number > 0
              && (c.checkpoint + 1 < WORD ==> !Numbered(f, runId, lib.schema, c.checkpoint + 1))
            case BadSequence =>
              c.checkpoint + 1 < WORD && Numbered(f, runId, lib.schema, c.checkpoint + 1)
              && lib.reduce(f.data.value, c.message).None?
            case _ => false
  {
    hide Decimal, VerbName;
  }

  /** The client after the first `i` frames. */
  ghost predicate Reached<M>(frames: seq<Frame>, i: nat, c: Client<M>, lib: Library<M>) {
    i <= |frames| && c.checkpoint == i && c.message == Folded(frames, i, lib)
  }

  lemma NextFits<M>(frames: seq<Frame>, i: nat, c: Client<M>, runId: string, lib: Library<M>)
    requires Reached(frames, i, c, lib) && i < |frames| && i < WORD
    ensures Check(c, frames[i], runId, lib).Accept? <==> Fits(frames, i, runId, lib)
    ensures Check(c, frames[i], runId, lib).Accept? ==>
        var step := Check(c, frames[i], runId, lib);
        Reached(frames, i + 1, step.client, lib) && step.event == frames[i].data.value
  {
    hide Check;
    CheckExactly(c, frames[i], runId, lib);
    if Check(c, frames[i], runId, lib).Accept? { CheckNumbers(c, frames[i], runId, lib); }
  }

  /** Frames are accepted up to the first that does not fit or that ends the turn. */
  lemma {:induction false} AcceptedFrom<M>(frames: seq<Frame>, i: nat, c: Client<M>, runId: string, lib: Library<M>)
    requires Reached(frames, i, c, lib) && i < WORD
    ensures var k := i + Accepted(frames[i..], c, runId, lib);
            && k <= |frames| && k < WORD
            && (forall j | i <= j < k :: Fits(frames, j, runId, lib))
            && (forall j | i <= j < k - 1 :: !Final(frames[j]))
            && (k < |frames| ==> !Fits(frames, k, runId, lib) || (k > i && Final(frames[k - 1])))
    decreases |frames| - i
  {
    hide Check, Numbered, Folded;
    if i < |frames| {
      NextFits(frames, i, c, runId, lib);
      assert frames[i..][0] == frames[i] && frames[i..][1..] == frames[i + 1..];
      var step := Check(c, frames[i], runId, lib);
      if step.Accept? {
        FitsIsFrame(frames, i, runId, lib);
        if !Terminal(step.event.verb) { AcceptedFrom(frames, i + 1, step.client, runId, lib); }
      }
    }
  }

  lemma FitsIsFrame<M>(frames: seq<Frame>, i: nat, runId: string, lib: Library<M>)
    requires i < |frames| && Fits(frames, i, runId, lib)
    ensures frames[i].Frame? && frames[i].data.Some? && i + 1 < WORD
  {
  }

  /** The frames of a call that are accepted: the longest beginning in which each is the next
      event of the run and reduces, cut behind the first event that ends the turn. */
  lemma AcceptedExactly<M>(frames: seq<Frame>, runId: string, lib: Library<M>)
    ensures var k := Accepted(frames, Client(FRESH, None), runId, lib);
            && k <= |frames| && (forall j | 0 <= j < k :: Fits(frames, j, runId, lib))
            && (forall j | 0 <= j < k - 1 :: !Final(frames[j]))
            && (k < |frames| ==> !Fits(frames, k, runId, lib) || (k > 0 && Final(frames[k - 1])))
  {
    assert frames[0..] == frames;
    AcceptedFrom(frames, 0, Client(FRESH, None), runId, lib);
  }

  lemma DisplayIs<M>(f: Frame, e: Event, m: Option<M>, lib: Library<M>)
    requires f.Frame? && f.data == Some(e)
    ensures !Terminal(e.verb) ==> Display(e, m, lib) == NoteOn(f, m, lib)
    ensures Terminal(e.verb) ==> |Display(e, m, lib)| == 1 && NoteOn(f, m, lib) == []
  {
  }

  lemma {:induction false} ShowsFrom<M>(frames: seq<Frame>, i: nat, c: Client<M>, runId: string, lib: Library<M>)
    requires Reached(frames, i, c, lib) && i < WORD
    ensures var out, k := Channel(frames[i..], c, runId, lib), i + Accepted(frames[i..], c, runId, lib);
            k <= |frames| && out != [] && Notes(frames, i, lib) + out[..|out| - 1] == Notes(frames, k, lib)
    decreases |frames| - i
  {
    hide Check, Folded, Display, NoteOn, Fits;
    var notes := Notes(frames, i, lib);
    assert notes + [] == notes;
    if i < |frames| {
      NextFits(frames, i, c, runId, lib);
      assert frames[i..][0] == frames[i] && frames[i..][1..] == frames[i + 1..];
      var step := Check(c, frames[i], runId, lib);
      if step.Accept? {
        FitsIsFrame(frames, i, runId, lib);
        var shown, note := Display(step.event, step.client.message, lib), NoteOn(frames[i], step.client.message, lib);
        DisplayIs(frames[i], step.event, step.client.message, lib);
        assert Notes(frames, i + 1, lib) == notes + note;
        if Terminal(step.event.verb) {
          assert shown + [] == shown && shown[..0] == [];
        } else {
          ShowsFrom(frames, i + 1, step.client, runId, lib);
          var rest := Channel(frames[i + 1..], step.client, runId, lib);
          Behind(shown, rest, notes);
        }
      }
    }
  }

  lemma Behind(shown: seq<Shown>, rest: seq<Shown>, notes: seq<Shown>)
    requires rest != []
    ensures var out := shown + rest; notes + out[..|out| - 1] == notes + shown + rest[..|rest| - 1]
  {
  }

  /** Before its closing event the channel carries the notes on the accepted events, each in
      its place and nothing else. */
  lemma ChannelShows<M>(frames: seq<Frame>, runId: string, lib: Library<M>)
    ensures var c := Client(FRESH, None);
            var out, k := Channel(frames, c, runId, lib), Accepted(frames, c, runId, lib);
            out != [] && k <= |frames| && out[..|out| - 1] == Notes(frames, k, lib)
  {
    hide Channel, Accepted, Notes;
    assert frames[0..] == frames;
    var c: Client<M> := Client(FRESH, None);
    ShowsFrom(frames, 0, c, runId, lib);
    var out := Channel(frames, c, runId, lib);
    NoNotes(frames, lib);
    assert [] + out[..|out| - 1] == out[..|out| - 1];
  }

  lemma NoNotes<M>(frames: seq<Frame>, lib: Library<M>)
    ensures Notes(frames, 0, lib) == []
  {
  }

  // ----- How it ends -----

  /** What the last event on the channel says of the `k` accepted frames. */
  ghost predicate Tells(last: Shown, frames: seq<Frame>, k: nat) {
    && k <= |frames|
    && (last == StreamEnd <==> k > 0 && Ends(frames[k - 1], RunFinish))
    && (last == Failure(Cancelled) <==> k > 0 && Ends(frames[k - 1], RunAbort))
    && (forall text :: last == Failure(FromRun(text)) <==>
          k > 0 && Ends(frames[k - 1], RunError) && frames[k - 1].data.value.text == text)
    && (last == Failure(Ended) <==> k == |frames| && (k > 0 ==> !Final(frames[k - 1])))
  }

  lemma OwnReasons<M>(c: Client<M>, f: Frame, runId: string, lib: Library<M>)
    requires Check(c, f, runId, lib).Refuse?
    ensures var reason := Check(c, f, runId, lib).reason;
            reason != Cancelled && reason != Ended && !reason.FromRun?
  {
    hide VerbName, Decimal;
  }

  lemma AcceptedEvent<M>(c: Client<M>, f: Frame, runId: string, lib: Library<M>)
    requires Check(c, f, runId, lib).Accept?
    ensures f.Frame? && f.data == Some(Check(c, f, runId, lib).event)
  {
    hide VerbName, Decimal;
  }

  lemma TerminalTells<M>(e: Event, m: Option<M>, lib: Library<M>, frames: seq<Frame>)
    requires Terminal(e.verb) && frames != [] && frames[0].Frame? && frames[0].data == Some(e)
    ensures |Display(e, m, lib)| == 1 && Tells(Display(e, m, lib)[0], frames, 1)
  {
  }

  lemma TellsOnward(last: Shown, frames: seq<Frame>, k: nat)
    requires frames != [] && !Final(frames[0]) && Tells(last, frames[1..], k)
    ensures Tells(last, frames, k + 1)
  {
  }

  /** The closing event tells why the stream stopped. */
  lemma {:induction false} ClosingTells<M>(frames: seq<Frame>, c: Client<M>, runId: string, lib: Library<M>)
    ensures var out := Channel(frames, c, runId, lib);
            out != [] && Tells(out[|out| - 1], frames, Accepted(frames, c, runId, lib))
    decreases |frames|
  {
    hide Check, Display, Tells;
    if frames == [] {
      NothingTells();
    } else {
      var step := Check(c, frames[0], runId, lib);
      if step.Refuse? {
        OwnReasons(c, frames[0], runId, lib);
        RefusalTells(step.reason, frames);
      } else {
        AcceptedEvent(c, frames[0], runId, lib);
        var shown := Display(step.event, step.client.message, lib);
        if Terminal(step.event.verb) {
          assert shown + [] == shown;
          TerminalTells(step.event, step.client.message, lib, frames);
        } else {
          ClosingTells(frames[1..], step.client, runId, lib);
          var rest := Channel(frames[1..], step.client, runId, lib);
          assert (shown + rest)[|shown + rest| - 1] == rest[|rest| - 1];
          TellsOnward(rest[|rest| - 1], frames, Accepted(frames[1..], step.client, runId, lib));
        }
      }
    }
  }

  lemma NothingTells()
    ensures Tells(Failure(Ended), [], 0)
  {
  }

  lemma RefusalTells(reason: Reason, frames: seq<Frame>)
    requires frames != [] && reason != Cancelled && reason != Ended && !reason.FromRun?
    ensures Tells(Failure(reason), frames, 0)
  {
  }

  predicate Ends(f: Frame, v: Verb) {
    f.Frame? && f.data.Some? && f.data.value.verb == v
  }

  predicate Final(f: Frame) {
    f.Frame? && f.data.Some? && Terminal(f.data.value.verb)
  }

  /** The whole call: the channel's shape and the accepted run. */
  lemma StreamIsARun<M>(frames: seq<Frame>, runId: string, lib: Library<M>)
    ensures var c := Client(FRESH, None);
            var k := Accepted(frames, c, runId, lib);
            && ClosesOnce(Channel(frames, c, runId, lib)) && k < WORD && k <= |frames|
            && (forall i | 0 <= i < k :: Numbered(frames[i], runId, lib.schema, i + 1))
            && (k > 0 ==> Ends(frames[0], RunStart))
  {
    hide Numbered;
    var c: Client<M> := Client(FRESH, None);
    var k := Accepted(frames, c, runId, lib);
    ChannelClosesOnce(frames, c, runId, lib);
    ClosingTells(frames, c, runId, lib);
    forall i | 0 <= i < k ensures Numbered(frames[i], runId, lib.schema, i + 1) {
      AcceptedAreNumbered(frames, c, runId, lib, i);
    }
    if k > 0 {
      AcceptedAreNumbered(frames, c, runId, lib, k - 1);
      FirstStarts(frames[0], runId, lib.schema);
    }
  }

  lemma FirstStarts(f: Frame, runId: string, schema: int)
    requires Numbered(f, runId, schema, 1)
    ensures Ends(f, RunStart)
  {
  }
}
