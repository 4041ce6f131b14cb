/** The repeat-collapsing log stream: what its output decodes to, what it drops
    and exactly when it drops nothing. */
module Journal {
  import Lines
  import opened Wrappers

  const REPEAT_WINDOW: nat := 16

  /** A record on the wrapped stream: a line of text, or the report that the
      last `len` lines came `n` more times. */
  datatype Out = Line(text: string) | Tally(len: nat, n: nat)

  datatype Log = Log(
    out: seq<Out>,
    recent: seq<string>,
    block: Option<seq<string>>,
    pos: nat,
    reps: nat,
    tallyAt: int)

  const EMPTY := Log([], [], None, 0, 0, 0)

  // --- one offered line ---

  /** The last `len` lines are the `len` before them over again. */
  predicate Repeats(r: seq<string>, len: nat) {
    0 < len && 2 * len <= |r| && r[|r| - len..] == r[|r| - 2 * len..|r| - len]
  }

  /** The shortest period of at most `window` lines, from `len` up; 0 if none. */
  function PeriodFrom(r: seq<string>, window: nat, len: nat): nat
    decreases window + 1 - len
  {
    if len > window || 2 * len > |r| then 0
    else if Repeats(r, len) then len
    else PeriodFrom(r, window, len + 1)
  }

  lemma {:induction false} PeriodFromIsShortest(r: seq<string>, window: nat, len: nat)
    requires 0 < len
    ensures var p := PeriodFrom(r, window, len);
      if p == 0 then forall k :: len <= k <= window ==> !Repeats(r, k)
      else len <= p <= window && Repeats(r, p) && forall k :: len <= k < p ==> !Repeats(r, k)
    decreases window + 1 - len
  {
    RepeatsNeedsRoom(r);
    hide Repeats;
    if len <= window && 2 * len <= |r| && !Repeats(r, len) {
      PeriodFromIsShortest(r, window, len + 1);
    }
  }

  lemma RepeatsNeedsRoom(r: seq<string>)
    ensures forall k: nat :: Repeats(r, k) ==> 2 * k <= |r|
  {
  }

  function Trim(r: seq<string>, n: nat): seq<string> {
    if |r| > n then r[|r| - n..] else r
  }

  /** `_tally`: report and clear a suppressed run, if there is one. */
  function Report(s: Log, now: int): Log {
    if s.reps == 0 || s.block.None? then s
    else s.(out := s.out + [Tally(|s.block.value|, s.reps)], reps := 0, tallyAt := now)
  }

  /** Text goes out, and a block that has just been written twice is taken up. */
  function Emit(window: nat, s: Log, text: string, now: int): Log {
    var recent := Trim(s.recent + [text], 2 * window);
    var len := PeriodFrom(recent, window, 1);
    var s' := s.(out := s.out + [Line(text)], recent := recent);
    if len == 0 || len > |recent| then s'
    else s'.(block := Some(recent[|recent| - len..]), pos := 0, reps := 0, tallyAt := now)
  }

  /** The line that would continue the current pass. */
  predicate Continues(s: Log, text: string) {
    s.block.Some? && s.pos < |s.block.value| && text == s.block.value[s.pos]
  }

  function Offer(window: nat, every: int, s: Log, text: string, now: int): Log {
    if Continues(s, text) then
      if s.pos + 1 < |s.block.value| then s.(pos := s.pos + 1)
      else
        var whole := s.(pos := 0, reps := s.reps + 1);
        if now - s.tallyAt >= every then Report(whole, now) else whole
    else if s.block.Some? then
      Emit(window, Report(s, now).(block := None, pos := 0, recent := []), text, now)
    else Emit(window, s, text, now)
  }

  // --- what the output says, and what became of each offered line ---

  function Rep(block: seq<string>, n: nat): seq<string> {
    if n == 0 then [] else Rep(block, n - 1) + block
  }

  function Last(lines: seq<string>, n: nat): seq<string> {
    if n <= |lines| then lines[|lines| - n..] else lines
  }

  /** Every report expanded into that many copies of the lines before it. */
  function Decode(out: seq<Out>): seq<string> {
    if out == [] then []
    else
      var n := |out| - 1;
      var d := Decode(out[..n]);
      match out[n]
      case Line(text) => d + [text]
      case Tally(len, k) => d + Rep(Last(d, len), k)
  }

  /** The lines a reader finds spelled out. */
  function Printed(out: seq<Out>): seq<string> {
    if out == [] then []
    else
      var n := |out| - 1;
      Printed(out[..n]) + if out[n].Line? then [out[n].text] else []
  }

  /** An offered line, and whether it was dropped unreported. */
  datatype Mark = Mark(text: string, dropped: bool)

  function Texts(marks: seq<Mark>): seq<string> {
    if marks == [] then [] else Texts(marks[..|marks| - 1]) + [marks[|marks| - 1].text]
  }

  function Kept(marks: seq<Mark>): seq<string> {
    if marks == [] then []
    else
      var n := |marks| - 1;
      Kept(marks[..n]) + if marks[n].dropped then [] else [marks[n].text]
  }

  /** The last `n` lines turn out to have been dropped. */
  function DropLast(marks: seq<Mark>, n: nat): (r: seq<Mark>)
    ensures |r| == |marks|
    decreases n
  {
    if n == 0 || marks == [] then marks
    else
      var last := |marks| - 1;
      DropLast(marks[..last], n - 1) + [marks[last].(dropped := true)]
  }

  datatype Traced = Traced(log: Log, marks: seq<Mark>)

  /** A break in the middle of a pass drops the lines of that pass. */
  predicate BreaksMidBlock(s: Log, text: string) {
    s.block.Some? && s.pos > 0 && !Continues(s, text)
  }

  function Step(window: nat, every: int, t: Traced, text: string, now: int): Traced {
    Traced(
      Offer(window, every, t.log, text, now),
      (if BreaksMidBlock(t.log, text) then DropLast(t.marks, t.log.pos) else t.marks) + [Mark(text, false)])
  }

  /** What reaches the journal: a line, or a flush with no line pending. */
  datatype Event = Offered(text: string, now: int) | Flushed(now: int)

  function Take(window: nat, every: int, t: Traced, e: Event): Traced {
    match e
    case Offered(text, now) => Step(window, every, t, text, now)
    case Flushed(now) => t.(log := Report(t.log, now))
  }

  function Run(window: nat, every: int, t: Traced, events: seq<Event>): Traced {
    if events == [] then t
    else
      var n := |events| - 1;
      Take(window, every, Run(window, every, t, events[..n]), events[n])
  }

  const START := Traced(EMPTY, [])

  function OfferedIn(events: seq<Event>): seq<string> {
    if events == [] then []
    else
      var n := |events| - 1;
      OfferedIn(events[..n]) + match events[n] case Offered(text, _) => [text] case Flushed(_) => []
  }

  /** What is still held back: whole passes not yet reported, and part of one. */
  function Held(s: Log): seq<string> {
    if s.block.None? || s.pos > |s.block.value| then []
    else Rep(s.block.value, s.reps) + s.block.value[..s.pos]
  }

  ghost predicate EndsWith(s: seq<string>, suffix: seq<string>) {
    |suffix| <= |s| && s[|s| - |suffix|..] == suffix
  }

  ghost predicate WellHeld(window: nat, s: Log) {
    match s.block
    case None => s.pos == 0 && s.reps == 0
    case Some(b) => 0 < |b| <= window && s.pos < |b|
  }

  /** Conservation: what is spelled out, reported or still held is every offered
      line but the dropped ones; what a block suppresses has been written twice. */
  ghost predicate Conserved(window: nat, t: Traced) {
    var s := t.log;
    && WellHeld(window, s)
    && Kept(t.marks) == Decode(s.out) + Held(s)
    && |t.marks| >= s.pos
    && (forall i :: |t.marks| - s.pos <= i < |t.marks| ==> !t.marks[i].dropped)
    && match s.block
       case None => EndsWith(Decode(s.out), s.recent) && EndsWith(Printed(s.out), s.recent)
       case Some(b) => EndsWith(Decode(s.out), b) && EndsWith(Printed(s.out), b + b)
  }

  // --- each step conserves ---

  lemma EndsWithMore(s: seq<string>, suffix: seq<string>, x: string)
    requires EndsWith(s, suffix)
    ensures EndsWith(s + [x], suffix + [x])
  {
    var n := |s| - |suffix|;
    assert (s + [x])[n..] == s[n..] + [x];
  }

  lemma EndsWithLess(s: seq<string>, long: seq<string>, n: nat)
    requires EndsWith(s, long) && n <= |long|
    ensures EndsWith(s, long[|long| - n..])
  {
    assert s[|s| - n..] == s[|s| - |long|..][|long| - n..];
  }

  lemma LineOut(out: seq<Out>, text: string)
    ensures Decode(out + [Line(text)]) == Decode(out) + [text]
    ensures Printed(out + [Line(text)]) == Printed(out) + [text]
  {
    assert (out + [Line(text)])[..|out|] == out;
  }

  lemma TallyOut(out: seq<Out>, b: seq<string>, n: nat)
    requires EndsWith(Decode(out), b)
    ensures Decode(out + [Tally(|b|, n)]) == Decode(out) + Rep(b, n)
    ensures Printed(out + [Tally(|b|, n)]) == Printed(out)
  {
    hide Rep;
    assert (out + [Tally(|b|, n)])[..|out|] == out;
    assert Last(Decode(out), |b|) == b;
    assert Printed(out) + [] == Printed(out);
  }

  lemma DecodeReport(s: Log, now: int, window: nat)
    requires WellHeld(window, s) && s.block.Some? && EndsWith(Decode(s.out), s.block.value)
    ensures Decode(Report(s, now).out) == Decode(s.out) + Rep(s.block.value, s.reps)
    ensures Printed(Report(s, now).out) == Printed(s.out)
    ensures EndsWith(Decode(Report(s, now).out), s.block.value)
  {
    hide Decode, Printed;
    var b := s.block.value;
    if s.reps > 0 {
      TallyOut(s.out, b, s.reps);
    } else {
      assert Decode(s.out) + [] == Decode(s.out);
    }
  }

  lemma {:induction false} KeptAppend(marks: seq<Mark>, text: string)
    ensures Kept(marks + [Mark(text, false)]) == Kept(marks) + [text]
    ensures Texts(marks + [Mark(text, false)]) == Texts(marks) + [text]
  {
    assert (marks + [Mark(text, false)])[..|marks|] == marks;
  }

  lemma {:induction false} KeptDropLast(marks: seq<Mark>, n: nat)
    requires n <= |marks| && forall i :: |marks| - n <= i < |marks| ==> !marks[i].dropped
    ensures |Kept(marks)| >= n
    ensures Kept(DropLast(marks, n)) == Kept(marks)[..|Kept(marks)| - n]
    ensures Texts(DropLast(marks, n)) == Texts(marks)
    decreases n
  {
    if n > 0 {
      var last := |marks| - 1;
      var head := marks[..last];
      KeptDropLast(head, n - 1);
      assert DropLast(marks, n)[..last] == DropLast(head, n - 1);
      assert Kept(marks) == Kept(head) + [marks[last].text];
      assert Kept(DropLast(head, n - 1)) + [] == Kept(DropLast(head, n - 1));
    }
  }

  lemma PeriodIsTwice(recent: seq<string>, window: nat)
    requires PeriodFrom(recent, window, 1) > 0
    ensures var len := PeriodFrom(recent, window, 1);
      && len <= window && 2 * len <= |recent|
      && recent[|recent| - 2 * len..] == recent[|recent| - len..] + recent[|recent| - len..]
  {
    PeriodFromIsShortest(recent, window, 1);
    var len := PeriodFrom(recent, window, 1);
    assert recent[|recent| - 2 * len..] == recent[|recent| - 2 * len..|recent| - len] + recent[|recent| - len..];
  }

  /** What is on the stream after a line went out: the line, and all of the kept
      recent lines, at the end both of what is spelled out and what it means. */
  lemma EmitWrites(window: nat, out: seq<Out>, recent: seq<string>, text: string)
    requires EndsWith(Decode(out), recent) && EndsWith(Printed(out), recent)
    ensures var r := Trim(recent + [text], 2 * window); var o := out + [Line(text)];
      EndsWith(Decode(o), r) && EndsWith(Printed(o), r) && Decode(o) == Decode(out) + [text]
  {
    hide Decode, Printed;
    var all := recent + [text];
    var o := out + [Line(text)];
    LineOut(out, text);
    EndsWithMore(Decode(out), recent, text);
    EndsWithMore(Printed(out), recent, text);
    var n := |Trim(all, 2 * window)|;
    EndsWithLess(Decode(o), all, n);
    EndsWithLess(Printed(o), all, n);
  }

  /** Writing a line out, with nothing held. */
  lemma EmitConserves(window: nat, s: Log, marks: seq<Mark>, text: string, now: int)
    requires s.block.None? && Conserved(window, Traced(s, marks))
    ensures Conserved(window, Traced(Emit(window, s, text, now), marks + [Mark(text, false)]))
  {
    hide PeriodFrom, Repeats, Decode, Printed, Kept, Rep, Trim, EndsWith;
    var recent := Trim(s.recent + [text], 2 * window);
    var out := s.out + [Line(text)];
    KeptAppend(marks, text);
    EmitWrites(window, s.out, s.recent, text);
    assert Decode(s.out) + [] == Decode(s.out);
    assert Decode(out) + [] == Decode(out);
    var len := PeriodFrom(recent, window, 1);
    if len > 0 {
      PeriodIsTwice(recent, window);
      TwiceOut(out, recent, len);
      NothingHeld(recent[|recent| - len..]);
    }
  }

  lemma TwiceOut(out: seq<Out>, recent: seq<string>, len: nat)
    requires EndsWith(Decode(out), recent) && EndsWith(Printed(out), recent) && 2 * len <= |recent|
    requires recent[|recent| - 2 * len..] == recent[|recent| - len..] + recent[|recent| - len..]
    ensures EndsWith(Decode(out), recent[|recent| - len..])
    ensures EndsWith(Printed(out), recent[|recent| - len..] + recent[|recent| - len..])
  {
    hide Decode, Printed, EndsWith;
    EndsWithLess(Decode(out), recent, len);
    EndsWithLess(Printed(out), recent, 2 * len);
  }

  lemma NothingHeld(b: seq<string>)
    ensures Rep(b, 0) + b[..0] == []
  {
  }

  lemma WholePass(b: seq<string>, n: nat, pos: nat, text: string)
    requires pos < |b| && text == b[pos]
    ensures pos + 1 < |b| ==> Rep(b, n) + b[..pos] + [text] == Rep(b, n) + b[..pos + 1]
    ensures pos + 1 == |b| ==> Rep(b, n) + b[..pos] + [text] == Rep(b, n + 1) + b[..0] == Rep(b, n + 1)
  {
    assert b[..pos] + [text] == b[..pos + 1];
    assert Rep(b, n) + b[..pos] + [text] == Rep(b, n) + b[..pos + 1];
  }

  lemma ReportConserves(window: nat, t: Traced, now: int)
    requires Conserved(window, t)
    ensures Conserved(window, t.(log := Report(t.log, now)))
  {
    hide Decode, Printed, Kept, Rep;
    var s := t.log;
    if s.reps > 0 {
      var b := s.block.value;
      DecodeReport(s, now, window);
      var rest := b[..s.pos];
      NothingHeld(b);
      assert Rep(b, 0) == [];
      assert Decode(s.out) + (Rep(b, s.reps) + rest) == (Decode(s.out) + Rep(b, s.reps)) + ([] + rest);
    }
  }

  lemma ContinueConserves(window: nat, every: int, t: Traced, text: string, now: int)
    requires Conserved(window, t) && Continues(t.log, text)
    ensures Conserved(window, Step(window, every, t, text, now))
  {
    hide Decode, Printed, Kept, Rep, DropLast, Report, Emit;
    var s := t.log;
    var b := s.block.value;
    var marks := t.marks + [Mark(text, false)];
    KeptAppend(t.marks, text);
    WholePass(b, s.reps, s.pos, text);
    assert Kept(marks) == Decode(s.out) + (Held(s) + [text]);
    if s.pos + 1 == |b| {
      var whole := s.(pos := 0, reps := s.reps + 1);
      ReportConserves(window, Traced(whole, marks), now);
    }
  }

  lemma BreakConserves(window: nat, every: int, t: Traced, text: string, now: int)
    requires Conserved(window, t) && t.log.block.Some? && !Continues(t.log, text)
    ensures Conserved(window, Step(window, every, t, text, now))
  {
    hide Decode, Printed, Kept, Rep, DropLast, Report, Emit;
    var s := t.log;
    var b := s.block.value;
    var marks := DropLast(t.marks, s.pos);
    KeptDropLast(t.marks, s.pos);
    DropNone(t.marks);
    DecodeReport(s, now, window);
    var base := Report(s, now).(block := None, pos := 0, recent := []);
    assert |Kept(t.marks)| - s.pos == |Decode(s.out) + Rep(b, s.reps)|;
    assert Kept(marks) == Decode(s.out) + Rep(b, s.reps);
    assert Decode(base.out) + [] == Decode(base.out);
    ReportClears(s, now);
    EmitConserves(window, base, marks, text, now);
  }

  lemma DropNone(marks: seq<Mark>)
    ensures DropLast(marks, 0) == marks
  {
  }

  lemma ReportClears(s: Log, now: int)
    requires s.block.Some?
    ensures Report(s, now).reps == 0
  {
  }

  lemma StepConserves(window: nat, every: int, t: Traced, text: string, now: int)
    requires Conserved(window, t)
    ensures Conserved(window, Step(window, every, t, text, now))
  {
    if Continues(t.log, text) {
      ContinueConserves(window, every, t, text, now);
    } else if t.log.block.Some? {
      BreakConserves(window, every, t, text, now);
    } else {
      EmitConserves(window, t.log, t.marks, text, now);
    }
  }

  // --- whole runs ---

  lemma TakeConserves(window: nat, every: int, t: Traced, e: Event)
    requires Conserved(window, t)
    ensures Conserved(window, Take(window, every, t, e))
    ensures Texts(Take(window, every, t, e).marks) ==
            Texts(t.marks) + match e case Offered(text, _) => [text] case Flushed(_) => []
  {
    hide Conserved, Kept, Texts, DropLast, Report, Offer;
    match e {
      case Offered(text, now) =>
        StepConserves(window, every, t, text, now);
        StepTexts(window, every, t, text, now);
      case Flushed(now) =>
        ReportConserves(window, t, now);
        assert Texts(t.marks) + [] == Texts(t.marks);
    }
  }

  lemma StepTexts(window: nat, every: int, t: Traced, text: string, now: int)
    requires Conserved(window, t)
    ensures Texts(Step(window, every, t, text, now).marks) == Texts(t.marks) + [text]
  {
    hide Kept, Texts, DropLast, Offer, Decode, Printed, Held, EndsWith;
    KeptDropLast(t.marks, t.log.pos);
    KeptAppend(t.marks, text);
    KeptAppend(DropLast(t.marks, t.log.pos), text);
  }

  /** After any run of lines and flushes, expanding the output and adding what is
      held gives the offered lines without the dropped ones. */
  lemma {:induction false} RunConserves(window: nat, every: int, events: seq<Event>)
    ensures var t := Run(window, every, START, events);
      && Conserved(window, t)
      && Texts(t.marks) == OfferedIn(events)
      && Kept(t.marks) == Decode(t.log.out) + Held(t.log)
  {
    hide Conserved, Kept, Take;
    if events == [] {
      StartConserves(window);
    } else {
      var n := |events| - 1;
      RunConserves(window, every, events[..n]);
      TakeConserves(window, every, Run(window, every, START, events[..n]), events[n]);
    }
    ConservedSays(window, Run(window, every, START, events));
  }

  lemma StartConserves(window: nat)
    ensures Conserved(window, START) && Texts(START.marks) == []
  {
  }

  lemma ConservedSays(window: nat, t: Traced)
    requires Conserved(window, t)
    ensures Kept(t.marks) == Decode(t.log.out) + Held(t.log)
  {
  }

  /** The last of the lines so far, which say `texts`, become dropped ones, and a
      new line follows. */
  ghost predicate Dropped(before: seq<Mark>, after: seq<Mark>, texts: seq<string>) {
    && |after| == |before| + 1 && |texts| <= |before|
    && var from := |before| - |texts|;
    && (forall i :: 0 <= i < from ==> after[i] == before[i])
    && (forall i :: from <= i < |before| ==>
         before[i] == Mark(texts[i - from], false) && after[i] == Mark(texts[i - from], true))
  }

  /** A break drops the matched beginning of the block, never as much as a whole
      pass, and nothing else. */
  lemma BreakDrops(window: nat, every: int, t: Traced, text: string, now: int)
    requires Conserved(window, t) && BreaksMidBlock(t.log, text)
    ensures 0 < t.log.pos < |t.log.block.value| <= window
    ensures Dropped(t.marks, Step(window, every, t, text, now).marks, t.log.block.value[..t.log.pos])
  {
    hide Conserved, Kept, DropLast, Offer, Report, Continues, Decode, Held;
    ConservedHeld(window, t);
    DropLastAt(t.marks, t.log.pos);
    HeldTexts(t);
  }

  /** No other event drops a line. */
  lemma OthersDropNothing(window: nat, every: int, t: Traced, e: Event)
    requires e.Offered? ==> !BreaksMidBlock(t.log, e.text)
    ensures t.marks <= Take(window, every, t, e).marks
  {
    hide Offer, Report, BreaksMidBlock;
  }

  lemma ConservedHeld(window: nat, t: Traced)
    requires Conserved(window, t) && t.log.block.Some?
    ensures t.log.pos <= |t.marks| && t.log.pos < |t.log.block.value| <= window
    ensures Kept(t.marks) == Decode(t.log.out) + Held(t.log)
    ensures forall i :: |t.marks| - t.log.pos <= i < |t.marks| ==> !t.marks[i].dropped
  {
    hide Kept, Decode, Printed, Held, EndsWith;
  }

  lemma HeldTexts(t: Traced)
    requires t.log.block.Some? && t.log.pos <= |t.log.block.value| && t.log.pos <= |t.marks|
    requires Kept(t.marks) == Decode(t.log.out) + Held(t.log)
    requires forall i :: |t.marks| - t.log.pos <= i < |t.marks| ==> !t.marks[i].dropped
    ensures forall i :: |t.marks| - t.log.pos <= i < |t.marks| ==>
      t.marks[i].text == t.log.block.value[i - (|t.marks| - t.log.pos)]
  {
    hide Kept, Decode, Rep;
    var from := |t.marks| - t.log.pos;
    KeptTail(t.marks, t.log.pos);
    forall i | from <= i < |t.marks|
      ensures t.marks[i].text == t.log.block.value[i - from]
    {
      assert Kept(t.marks)[|Kept(t.marks)| - (|t.marks| - i)] == t.log.block.value[..t.log.pos][i - from];
    }
  }

  lemma {:induction false} KeptTail(marks: seq<Mark>, n: nat)
    requires n <= |marks| && forall i :: |marks| - n <= i < |marks| ==> !marks[i].dropped
    ensures |Kept(marks)| >= n
    ensures forall i :: |marks| - n <= i < |marks| ==> Kept(marks)[|Kept(marks)| - (|marks| - i)] == marks[i].text
    decreases n
  {
    if n > 0 {
      var head := marks[..|marks| - 1];
      KeptTail(head, n - 1);
      assert Kept(marks) == Kept(head) + [marks[|marks| - 1].text];
      forall i | |marks| - n <= i < |marks|
        ensures Kept(marks)[|Kept(marks)| - (|marks| - i)] == marks[i].text
      {
        if i < |marks| - 1 {
          assert Kept(head)[|Kept(head)| - (|head| - i)] == head[i].text;
        }
      }
    }
  }

  lemma {:induction false} DropLastAt(marks: seq<Mark>, n: nat)
    requires n <= |marks|
    ensures forall i :: 0 <= i < |marks| - n ==> DropLast(marks, n)[i] == marks[i]
    ensures forall i :: |marks| - n <= i < |marks| ==> DropLast(marks, n)[i] == Mark(marks[i].text, true)
    decreases n
  {
    if n > 0 {
      DropLastAt(marks[..|marks| - 1], n - 1);
    }
  }

  /** How many lines came in the middle of a pass they did not continue. */
  function MidBlockBreaks(window: nat, every: int, events: seq<Event>): nat {
    if events == [] then 0
    else
      var n := |events| - 1;
      var log := Run(window, every, START, events[..n]).log;
      MidBlockBreaks(window, every, events[..n]) +
      if events[n].Offered? && BreaksMidBlock(log, events[n].text) then 1 else 0
  }

  /** Nothing is lost exactly when no line broke a run in the middle of its block. */
  lemma {:induction false} LosslessIff(window: nat, every: int, events: seq<Event>)
    ensures var log := Run(window, every, START, events).log;
      Decode(log.out) + Held(log) == OfferedIn(events) <==> MidBlockBreaks(window, every, events) == 0
  {
    hide *;
    var t := Run(window, every, START, events);
    RunConserves(window, every, events);
    TextsLength(t.marks);
    KeptAll(t.marks);
    KeptCounts(window, every, events);
  }

  lemma {:induction false} TextsLength(marks: seq<Mark>)
    ensures |Texts(marks)| == |marks| && |Kept(marks)| <= |marks|
  {
    if marks != [] {
      TextsLength(marks[..|marks| - 1]);
    }
  }

  lemma {:induction false} KeptAll(marks: seq<Mark>)
    ensures |Kept(marks)| == |marks| ==> Kept(marks) == Texts(marks)
  {
    if marks != [] {
      KeptAll(marks[..|marks| - 1]);
      TextsLength(marks[..|marks| - 1]);
    }
  }

  lemma {:induction false} KeptCounts(window: nat, every: int, events: seq<Event>)
    ensures var marks := Run(window, every, START, events).marks;
      |Kept(marks)| == |marks| <==> MidBlockBreaks(window, every, events) == 0
  {
    hide Kept, Offer, Report, DropLast, BreaksMidBlock, Conserved, Texts;
    if events == [] {
      KeptNone();
    } else {
      var n := |events| - 1;
      var t := Run(window, every, START, events[..n]);
      KeptCounts(window, every, events[..n]);
      RunConserves(window, every, events[..n]);
      TextsLength(t.marks);
      if events[n].Offered? {
        StepCounts(window, every, t, events[n].text, events[n].now);
      }
    }
  }

  lemma KeptNone()
    ensures Kept([]) == []
  {
  }

  lemma StepCounts(window: nat, every: int, t: Traced, text: string, now: int)
    requires Conserved(window, t)
    ensures var marks := Step(window, every, t, text, now).marks;
      |marks| - |Kept(marks)| ==
      |t.marks| - |Kept(t.marks)| + if BreaksMidBlock(t.log, text) then t.log.pos else 0
    ensures BreaksMidBlock(t.log, text) ==> t.log.pos > 0
  {
    hide Kept, DropLast, Offer, Decode, Printed, Held, EndsWith;
    KeptDropLast(t.marks, t.log.pos);
    KeptAppend(t.marks, text);
    KeptAppend(DropLast(t.marks, t.log.pos), text);
  }

  lemma {:induction false} RunAppend(window: nat, every: int, t: Traced, events: seq<Event>, e: Event)
    ensures Run(window, every, t, events + [e]) == Take(window, every, Run(window, every, t, events), e)
  {
    assert (events + [e])[..|events|] == events;
  }

  /** Losslessness fails: a block of two written twice, begun again, and left. */
  lemma BrokenPassIsLost(now: int)
    ensures var e := [Offered("a", now), Offered("b", now), Offered("a", now), Offered("b", now),
                      Offered("a", now), Offered("c", now)];
      var log := Run(REPEAT_WINDOW, 300, START, e).log;
      Decode(log.out) + Held(log) == ["a", "b", "a", "b", "c"]
  {
    hide Run, Offer, Decode, Held;
    var a, b, c := Offered("a", now), Offered("b", now), Offered("c", now);
    assert [a, b, a, b] + [a] == [a, b, a, b, a] && [a, b, a, b, a] + [c] == [a, b, a, b, a, c];
    RunTwoPasses(now);
    RunOffer([a, b, a, b], "a", now);
    RunOffer([a, b, a, b, a], "c", now);
    BrokenThird(now);
    var log := Run(REPEAT_WINDOW, 300, START, [a, b, a, b, a, c]).log;
    DecodedLines(log.out, ["a", "b", "a", "b", "c"]);
    Nothing(log);
  }

  lemma RunTwoPasses(now: int)
    ensures var e := [Offered("a", now), Offered("b", now), Offered("a", now), Offered("b", now)];
      Run(REPEAT_WINDOW, 300, START, e).log ==
      Log([Line("a"), Line("b"), Line("a"), Line("b")], A_B_TWICE, Some(["a", "b"]), 0, 0, now)
  {
    hide Run, Offer;
    var a, b := Offered("a", now), Offered("b", now);
    assert [] + [a] == [a] && [a] + [b] == [a, b] && [a, b] + [a] == [a, b, a];
    assert [a, b, a] + [b] == [a, b, a, b];
    RunOffer([], "a", now);
    RunOffer([a], "b", now);
    RunOffer([a, b], "a", now);
    RunOffer([a, b, a], "b", now);
    TwoPasses(now);
  }

  lemma RunOffer(events: seq<Event>, text: string, now: int)
    ensures Run(REPEAT_WINDOW, 300, START, events + [Offered(text, now)]).log ==
            Offer(REPEAT_WINDOW, 300, Run(REPEAT_WINDOW, 300, START, events).log, text, now)
    ensures Run(REPEAT_WINDOW, 300, START, []).log == EMPTY
  {
    hide Offer;
    RunAppend(REPEAT_WINDOW, 300, START, events, Offered(text, now));
  }

  const A_B_TWICE := ["a", "b", "a", "b"]

  lemma TwoPasses(now: int)
    ensures var W := REPEAT_WINDOW;
      Offer(W, 300, Offer(W, 300, Offer(W, 300, Offer(W, 300, EMPTY, "a", now), "b", now), "a", now), "b", now) ==
      Log([Line("a"), Line("b"), Line("a"), Line("b")], A_B_TWICE, Some(["a", "b"]), 0, 0, now)
  {
    hide Offer;
    WrittenOut(EMPTY, "a", now, 0, [Line("a")], ["a"]);
    WrittenOut(Log([Line("a")], ["a"], None, 0, 0, 0), "b", now, 0, [Line("a"), Line("b")], ["a", "b"]);
    WrittenOut(Log([Line("a"), Line("b")], ["a", "b"], None, 0, 0, 0), "a", now, 0,
               [Line("a"), Line("b"), Line("a")], ["a", "b", "a"]);
    assert Repeats(A_B_TWICE, 2);
    WrittenOut(Log([Line("a"), Line("b"), Line("a")], ["a", "b", "a"], None, 0, 0, 0), "b", now, 2,
               [Line("a"), Line("b"), Line("a"), Line("b")], A_B_TWICE);
    assert A_B_TWICE[2..] == ["a", "b"];
  }

  lemma BrokenThird(now: int)
    ensures var out := [Line("a"), Line("b"), Line("a"), Line("b")];
      var held := Log(out, A_B_TWICE, Some(["a", "b"]), 0, 0, now);
      Offer(REPEAT_WINDOW, 300, Offer(REPEAT_WINDOW, 300, held, "a", now), "c", now) ==
      Log(out + [Line("c")], ["c"], None, 0, 0, now)
  {
    hide Offer;
    var out := [Line("a"), Line("b"), Line("a"), Line("b")];
    var held := Log(out, A_B_TWICE, Some(["a", "b"]), 0, 0, now);
    Matched(held, "a", now);
    LeftMidBlock(held.(pos := 1), "c", now);
    WrittenOut(Log(out, [], None, 0, 0, now), "c", now, 0, out + [Line("c")], ["c"]);
  }

  lemma Nothing(s: Log)
    requires s.block.None?
    ensures Held(s) == []
  {
  }

  lemma {:induction false} DecodedLines(out: seq<Out>, texts: seq<string>)
    requires |out| == |texts| && forall i :: 0 <= i < |out| ==> out[i] == Line(texts[i])
    ensures Decode(out) == texts
  {
    if out != [] {
      var n := |out| - 1;
      DecodedLines(out[..n], texts[..n]);
      assert texts == texts[..n] + [texts[n]];
    }
  }

  lemma WrittenOut(s: Log, text: string, now: int, len: nat, out: seq<Out>, recent: seq<string>)
    requires s.block.None? && |s.recent| < 4
    requires out == s.out + [Line(text)] && recent == s.recent + [text]
    requires len == PeriodFrom(recent, REPEAT_WINDOW, 1)
    ensures Offer(REPEAT_WINDOW, 300, s, text, now) ==
      if len == 0 || len > |recent| then s.(out := out, recent := recent)
      else Log(out, recent, Some(recent[|recent| - len..]), 0, 0, now)
  {
    hide PeriodFrom;
  }

  lemma Matched(s: Log, text: string, now: int)
    requires Continues(s, text) && s.pos + 1 < |s.block.value|
    ensures Offer(REPEAT_WINDOW, 300, s, text, now) == s.(pos := s.pos + 1)
  {
  }

  lemma LeftMidBlock(s: Log, text: string, now: int)
    requires s.block.Some? && !Continues(s, text) && s.reps == 0
    ensures Offer(REPEAT_WINDOW, 300, s, text, now) ==
            Offer(REPEAT_WINDOW, 300, Log(s.out, [], None, 0, 0, s.tallyAt), text, now)
  {
    hide Emit;
  }

  /** The block taken up is the shortest that has just come twice, and one is taken
      up whenever there is one. */
  lemma TakesUpShortest(window: nat, s: Log, text: string, now: int)
    requires s.block.None?
    ensures var r := Emit(window, s, text, now);
      match r.block
      case Some(b) => Repeats(r.recent, |b|) && (forall k :: 0 < k < |b| ==> !Repeats(r.recent, k))
      case None => forall k :: 0 < k <= window ==> !Repeats(r.recent, k)
  {
    hide PeriodFrom, Repeats, Trim;
    var recent := Trim(s.recent + [text], 2 * window);
    PeriodFromIsShortest(recent, window, 1);
    if PeriodFrom(recent, window, 1) > 0 {
      PeriodIsTwice(recent, window);
    }
  }

  /** What one offered line writes. One that continues the block writes nothing, unless it
      completes a pass a reporting interval or more after the last report, which then
      counts every pass since; any other line goes out, behind the report of the passes
      held if there are any, and only lines since then can make up the next block. */
  lemma OfferWrites(window: nat, every: int, s: Log, text: string, now: int)
    requires WellHeld(window, s)
    ensures var d := Offer(window, every, s, text, now);
      var goesOn := s.block.Some? && text == s.block.value[s.pos];
      var whole := goesOn && s.pos + 1 == |s.block.value|;
      var due := now - s.tallyAt >= every;
      && (goesOn ==>
           && d.block == s.block && d.recent == s.recent && d.pos == (if whole then 0 else s.pos + 1)
           && d.out == s.out + (if whole && due then [Tally(|s.block.value|, s.reps + 1)] else [])
           && d.reps == (if !whole then s.reps else if due then 0 else s.reps + 1))
      && (!goesOn ==>
           && d.out == s.out + (if s.reps > 0 then [Tally(|s.block.value|, s.reps)] else []) + [Line(text)]
           && d.pos == 0 && d.reps == 0
           && (s.block.Some? ==> d.recent == Trim([text], 2 * window))
           && (s.block.None? ==> d.recent == Trim(s.recent + [text], 2 * window)))
  {
    hide PeriodFrom, Repeats, Trim;
    assert s.out + [] == s.out;
    assert [] + [text] == [text];
  }

  /** A flush reports the passes held, and holds none. */
  lemma FlushReports(window: nat, every: int, t: Traced, now: int)
    requires WellHeld(window, t.log)
    ensures var d := Take(window, every, t, Flushed(now)).log; var s := t.log;
      && d.out == s.out + (if s.reps > 0 then [Tally(|s.block.value|, s.reps)] else [])
      && d.reps == 0 && d.block == s.block && d.pos == s.pos && d.recent == s.recent
  {
  }

  /** What is kept of the lines since a break: the last of them, at most so many. */
  lemma TrimKeeps(r: seq<string>, n: nat)
    ensures |Trim(r, n)| == (if |r| < n then |r| else n) && EndsWith(r, Trim(r, n))
  {
  }

  // --- the stream itself ---

  function EventsOf(lines: seq<string>, clock: nat -> int): seq<Event> {
    seq(|lines|, i requires 0 <= i < |lines| => Offered(lines[i], clock(i)))
  }

  lemma EventsAppend(lines: seq<string>, clock: nat -> int, line: string)
    ensures EventsOf(lines + [line], clock) == EventsOf(lines, clock) + [Offered(line, clock(|lines|))]
  {
  }

  lemma RunEmpty(window: nat, every: int, t: Traced)
    ensures Run(window, every, t, []) == t
  {
  }

  lemma RunNone(window: nat, every: int, t: Traced, clock: nat -> int)
    ensures Run(window, every, t, EventsOf([], clock)) == t
  {
  }

  lemma RunLine(window: nat, every: int, t: Traced, lines: seq<string>, clock: nat -> int, line: string)
    ensures Run(window, every, t, EventsOf(lines + [line], clock)) ==
            Step(window, every, Run(window, every, t, EventsOf(lines, clock)), line, clock(|lines|))
  {
    hide Run, Step;
    EventsAppend(lines, clock, line);
    RunAppend(window, every, t, EventsOf(lines, clock), Offered(line, clock(|lines|)));
  }

  lemma RepeatsIs(r: seq<string>, len: nat)
    requires 0 < len && 2 * len <= |r|
    ensures Repeats(r, len) == (r[|r| - len..] == r[|r| - 2 * len..|r| - len])
  {
  }

  lemma ConservedBlock(window: nat, t: Traced)
    requires Conserved(window, t)
    ensures match t.log.block
      case None => t.log.pos == 0 && t.log.reps == 0
      case Some(b) => t.log.pos < |b|
  {
  }

  lemma TrimIs(r: seq<string>, n: nat)
    ensures Trim(r, n) == if |r| > n then r[|r| - n..] else r
  {
  }

  lemma EmitIs(window: nat, s: Log, text: string, now: int, recent: seq<string>, len: nat)
    requires recent == Trim(s.recent + [text], 2 * window) && len == PeriodFrom(recent, window, 1)
    ensures len <= |recent|
    ensures Emit(window, s, text, now) ==
      if len == 0 then s.(out := s.out + [Line(text)], recent := recent)
      else Log(s.out + [Line(text)], recent, Some(recent[|recent| - len..]), 0, 0, now)
  {
    hide Trim, PeriodFrom;
    if len > 0 {
      PeriodIsTwice(recent, window);
    }
  }

  lemma StepContinues(window: nat, every: int, t: Traced, text: string, now: int)
    requires Continues(t.log, text)
    ensures var u := Traced(t.log.(pos := t.log.pos + 1), t.marks + [Mark(text, false)]);
      var whole := u.log.(pos := 0, reps := u.log.reps + 1);
      Step(window, every, t, text, now) ==
      if u.log.pos < |t.log.block.value| then u
      else u.(log := if now - t.log.tallyAt >= every then Report(whole, now) else whole)
  {
    hide Report;
  }

  lemma StepBreaks(window: nat, every: int, t: Traced, text: string, now: int)
    requires t.log.block.Some? && !Continues(t.log, text)
    ensures Step(window, every, t, text, now) ==
      Traced(Emit(window, Report(t.log, now).(block := None, pos := 0, recent := []), text, now),
             DropLast(t.marks, t.log.pos) + [Mark(text, false)])
  {
    hide Report, Emit, DropLast;
    DropNone(t.marks);
  }

  lemma StepPlain(window: nat, every: int, t: Traced, text: string, now: int)
    requires t.log.block.None?
    ensures Step(window, every, t, text, now) ==
            Traced(Emit(window, t.log, text, now), t.marks + [Mark(text, false)])
  {
    hide Emit;
  }

  /** The stream the daemon prints to: `out` is what reaches the file, and `marks`
      remembers every offered line and whether it was dropped. */
  class Stream {
    var partial: string
    var recent: seq<string>
    var block: Option<seq<string>>
    var pos: nat
    var reps: nat
    var tallyAt: int
    var out: seq<Out>
    ghost var marks: seq<Mark>
    const window: nat
    const every: int

    ghost function Model(): Traced
      reads this
    {
      Traced(Log(out, recent, block, pos, reps, tallyAt), marks)
    }

    ghost predicate Valid()
      reads this
    {
      Conserved(window, Model()) && '\n' !in partial && |partial| <= Lines.PARTIAL_CAP
    }

    constructor (window: nat := REPEAT_WINDOW, every: int := 300)
      ensures Valid() && Model() == START && partial == ""
      ensures this.window == window && this.every == every
    {
      partial, recent, block, pos, reps, tallyAt, out, marks := "", [], None, 0, 0, 0, [], [];
      this.window, this.every := window, every;
      new;
      StartConserves(window);
    }

    method Period() returns (len: nat)
      ensures len == PeriodFrom(recent, window, 1)
    {
      hide Repeats;
      var l := 1;
      while l <= window
        invariant 1 <= l
        invariant PeriodFrom(recent, window, l) == PeriodFrom(recent, window, 1)
      {
        if 2 * l > |recent| { break; }
        assert Repeats(recent, l) == (recent[|recent| - l..] == recent[|recent| - 2 * l..|recent| - l]) by {
          RepeatsIs(recent, l);
        }
        if recent[|recent| - l..] == recent[|recent| - 2 * l..|recent| - l] {
          return l;
        }
        l := l + 1;
      }
      return 0;
    }

    method TallyUp(now: int)
      requires block.None? ==> reps == 0
      modifies this`out, this`reps, this`tallyAt
      ensures Model() == old(Model()).(log := Report(old(Model()).log, now))
    {
      if reps == 0 { return; }
      var n := reps;
      reps := 0;
      out := out + [Tally(|block.value|, n)];
      tallyAt := now;
    }

    /** Nothing held: the line goes out and the detector looks at it. */
    method PutOut(text: string, now: int)
      requires block.None? && pos == 0 && reps == 0
      modifies this`out, this`recent, this`block, this`pos, this`reps, this`tallyAt
      ensures Model() == old(Model()).(log := Emit(window, old(Model()).log, text, now))
    {
      hide Emit, Trim, PeriodFrom, Repeats, Report, Conserved;
      ghost var log := Model().log;
      out := out + [Line(text)];
      var kept := recent + [text];
      TrimIs(kept, 2 * window);
      if |kept| > 2 * window {
        kept := kept[|kept| - 2 * window..];
      }
      recent := kept;
      var len := Period();
      EmitIs(window, log, text, now, kept, len);
      if len != 0 {
        block := Some(kept[|kept| - len..]);
        pos := 0;
        reps := 0;
        tallyAt := now;
      }
    }

    method Offer(text: string, now: int)
      requires Conserved(window, Model())
      modifies this
      ensures Conserved(window, Model()) && partial == old(partial)
      ensures Model() == Step(window, every, old(Model()), text, now)
    {
      hide Conserved, DropLast, Emit, Report, Step;
      ghost var before := Model();
      StepConserves(window, every, before, text, now);
      ConservedBlock(window, before);
      if block.Some? {
        if text == block.value[pos] {
          StepContinues(window, every, before, text, now);
          pos := pos + 1;
          marks := marks + [Mark(text, false)];
          if pos == |block.value| {
            pos := 0;
            reps := reps + 1;
            if now - tallyAt >= every {
              TallyUp(now);
            }
          }
          return;
        }
        StepBreaks(window, every, before, text, now);
        marks := DropLast(marks, pos);
        TallyUp(now);
        ReportClears(before.log, now);
        block := None;
        pos := 0;
        recent := [];
      } else {
        StepPlain(window, every, before, text, now);
      }
      PutOut(text, now);
      marks := marks + [Mark(text, false)];
    }

    /** Every line the text completes is offered, in order. */
    method Write(s: string, clock: nat -> int)
      requires Valid()
      modifies this
      ensures Valid()
      ensures partial == Lines.Assembled(old(partial), s).1
      ensures Model() ==
              Run(window, every, old(Model()), EventsOf(Lines.Assembled(old(partial), s).0, clock))
    {
      hide Run, Conserved, Step, EventsOf, Lines.Whole, Lines.Tail, Lines.Find, Lines.StripCr, Lines.Stripped;
      RunNone(window, every, Model(), clock);
      if s == "" { return; }
      partial := partial + s;
      ghost var all, seen, start := partial, [], Model();
      var lines: seq<string> := [];
      Lines.StrippedNone();
      while true
        invariant Conserved(window, Model())
        invariant seen + Lines.Whole(partial, '\n') == Lines.Whole(all, '\n')
        invariant Lines.Tail(partial, '\n') == Lines.Tail(all, '\n')
        invariant lines == Lines.Stripped(seen)
        invariant Model() == Run(window, every, start, EventsOf(lines, clock))
        decreases |partial|
      {
        Lines.FirstLine(partial, '\n');
        var i := Lines.Find(partial, '\n');
        if i == |partial| { break; }
        var line := Lines.StripCr(partial[..i]);
        Lines.StrippedOne(seen, partial[..i]);
        seen := seen + [partial[..i]];
        partial := partial[i + 1..];
        Offer(line, clock(|lines|));
        RunLine(window, every, start, lines, clock, line);
        lines := lines + [line];
      }
      Lines.FirstLine(partial, '\n');
      assert seen + [] == seen;
      if |partial| > Lines.PARTIAL_CAP {
        Offer(partial, clock(|lines|));
        RunLine(window, every, start, lines, clock, partial);
        partial := "";
      }
    }

    /** A pending line is offered, then whatever run is held is reported. */
    method Flush(now: int)
      requires Valid()
      modifies this
      ensures Valid() && partial == "" && reps == 0
      ensures Model() == Run(window, every, old(Model()),
        (if old(partial) == "" then [] else [Offered(old(partial), now)]) + [Flushed(now)])
    {
      hide Conserved, Step, Run;
      ghost var events: seq<Event>, start := [], Model();
      RunEmpty(window, every, start);
      if partial != "" {
        Offer(partial, now);
        RunAppend(window, every, start, [], Offered(partial, now));
        events := [Offered(partial, now)];
        assert [] + events == events;
        partial := "";
      }
      RunAppend(window, every, start, events, Flushed(now));
      ConservedBlock(window, Model());
      ReportConserves(window, Model(), now);
      TallyUp(now);
    }
  }
}
