/** Two cadences to one board: a heartbeat that says everything and a fast tick that
    says only what changed, and what the board has been told after each. */
module Push {
  import opened Wrappers

  /** A usage message's members, each value as it is written. */
  type Usage = map<string, string>

  const VOLATILE: set<string> := {
    "age_s", "p2_age_s", "active_age_s", "session_resets_in_s", "weekly_resets_in_s", "p2_s_in_s", "p2_w_in_s"
  }

  /** The part of a usage message that says something. */
  function Meaningful(u: Usage): Usage {
    map k | k in u && k !in VOLATILE :: u[k]
  }

  datatype Pair = Pair(project: string, n: int)

  datatype Message =
    | Time
    | UsageMessage(usage: Usage)
    | SessionMessage(pair: Pair)
    | StatusMessage(detail: string)
    | Welcome
    | OtaError(why: string)

  /** What reading the sources gives: a failure, nothing yet, or a message as it would
      go out, with the project it is about where the source can name one. */
  datatype Fetch = Raised(text: string) | NothingYet | Read(usage: Usage, pair: Option<Pair>)

  /** `boot` is where on the wire the board at the other end last started up, or came. */
  datatype State = State(lastSession: Option<Pair>, lastPushed: Option<Usage>, sent: seq<Message>, boot: nat)

  const START := State(None, None, [], 0)

  function Write(s: State, m: Message): State {
    s.(sent := s.sent + [m])
  }

  function SendSession(s: State, pair: Option<Pair>): State {
    if pair.None? || s.lastSession == pair then s
    else Write(s, SessionMessage(pair.value)).(lastSession := pair)
  }

  function SendUsage(s: State, u: Usage, pair: Option<Pair>): State {
    SendSession(Write(s, UsageMessage(u)).(lastPushed := Some(Meaningful(u))), pair)
  }

  function PollOnce(s: State, f: Fetch): State {
    match f
    case Raised(text) => Write(Write(s, Time), StatusMessage(text[..if |text| < 80 then |text| else 80]))
    case NothingYet => Write(s, Time)
    case Read(u, pair) => SendUsage(Write(s, Time), u, pair)
  }

  function PollIfChanged(s: State, f: Fetch): State {
    match f
    case Read(u, pair) =>
      if s.lastPushed != Some(Meaningful(u)) then SendUsage(s, u, pair) else SendSession(s, pair)
    case _ => s
  }

  /** A board that just started, or was just found: greeted and told everything. */
  function Greet(s: State, report: Option<string>, f: Fetch): State {
    var s1 := Write(s, Welcome);
    var s2 := if report.Some? then Write(s1, OtaError(report.value)) else s1;
    PollOnce(s2.(lastSession := None), f)
  }

  datatype Event =
    | Heartbeat(f: Fetch)
    | Tick(f: Fetch)
    | Boot(report: Option<string>, f: Fetch)    // the board started, and said so
    | Found(report: Option<string>, f: Fetch)   // it was running already
    | Link(another: bool)                       // a new bridge, perhaps to another board

  predicate Reads(e: Event) {
    !e.Link? && e.f.Read?
  }

  function Next(s: State, e: Event): State {
    match e
    case Heartbeat(f) => PollOnce(s, f)
    case Tick(f) => PollIfChanged(s, f)
    case Boot(report, f) => Greet(s.(boot := |s.sent|), report, f)
    case Found(report, f) => Greet(s, report, f)
    case Link(another) => State(None, None, s.sent, if another then |s.sent| else s.boot)
  }

  function Run(s: State, events: seq<Event>): State {
    if events == [] then s else Next(Run(s, events[..|events| - 1]), events[|events| - 1])
  }

  // --- the panel ---

  function LastUsage(sent: seq<Message>): Option<Usage> {
    if sent == [] then None
    else if sent[|sent| - 1].UsageMessage? then Some(sent[|sent| - 1].usage)
    else LastUsage(sent[..|sent| - 1])
  }

  function LastSession(sent: seq<Message>): Option<Pair> {
    if sent == [] then None
    else if sent[|sent| - 1].SessionMessage? then Some(sent[|sent| - 1].pair)
    else LastSession(sent[..|sent| - 1])
  }

  /** The usage in front of the person, without the clocks, and the project named. */
  datatype View = View(usage: Option<Usage>, session: Option<Pair>)

  function Shown(sent: seq<Message>): View {
    var u := LastUsage(sent);
    View(if u.Some? then Some(Meaningful(u.value)) else None, LastSession(sent))
  }

  /** What the board has been told since it started. */
  function Since(s: State): seq<Message> {
    if s.boot <= |s.sent| then s.sent[s.boot..] else []
  }

  lemma ShownMore(sent: seq<Message>, m: Message)
    ensures Shown(sent + [m]) ==
      match m
      case UsageMessage(u) => View(Some(Meaningful(u)), Shown(sent).session)
      case SessionMessage(p) => Shown(sent).(session := Some(p))
      case _ => Shown(sent)
  {
    assert (sent + [m])[..|sent|] == sent;
  }

  ghost predicate Inv(s: State) {
    && s.boot <= |s.sent|
    && (s.lastPushed.Some? ==> Shown(s.sent).usage == s.lastPushed)
    && (s.lastSession.Some? ==> Shown(Since(s)).session == s.lastSession && Shown(s.sent).session == s.lastSession)
    && (Shown(Since(s)).usage.Some? && s.lastPushed.Some? ==> Shown(Since(s)).usage == s.lastPushed)
  }

  lemma WriteShows(s: State, m: Message)
    requires s.boot <= |s.sent|
    ensures Write(s, m).boot <= |Write(s, m).sent|
    ensures Since(Write(s, m)) == Since(s) + [m]
  {
  }

  /** One write keeps what is remembered true, if it is brought up to date with it. */
  lemma WriteKeeps(s: State, m: Message, d: State)
    requires Inv(s) && d.sent == s.sent + [m] && d.boot == s.boot
    requires d.lastPushed == if m.UsageMessage? then Some(Meaningful(m.usage)) else s.lastPushed
    requires d.lastSession == if m.SessionMessage? then Some(m.pair) else s.lastSession
    ensures Inv(d)
    ensures m.UsageMessage? ==> Shown(Since(d)).usage == Some(Meaningful(m.usage))
    ensures !m.UsageMessage? ==> Shown(Since(d)).usage == Shown(Since(s)).usage
    ensures m.SessionMessage? ==> Shown(Since(d)).session == Some(m.pair)
    ensures !m.SessionMessage? ==> Shown(Since(d)).session == Shown(Since(s)).session
  {
    hide Shown, Since;
    WriteShows(s, m);
    SinceOnly(d, Write(s, m));
    ShownMore(s.sent, m);
    ShownMore(Since(s), m);
  }

  lemma SinceOnly(a: State, b: State)
    requires a.sent == b.sent && a.boot == b.boot
    ensures Since(a) == Since(b)
  {
  }

  lemma SendSessionKeeps(s: State, pair: Option<Pair>)
    requires Inv(s)
    ensures var d := SendSession(s, pair);
      && Inv(d) && d.lastPushed == s.lastPushed && d.boot == s.boot
      && Shown(Since(d)).usage == Shown(Since(s)).usage
      && (pair.Some? ==> Shown(Since(d)).session == pair && d.lastSession == pair)
      && (pair.None? ==> d == s)
  {
    hide Shown, Since;
    if pair.Some? && s.lastSession != pair {
      WriteKeeps(s, SessionMessage(pair.value), SendSession(s, pair));
    }
  }

  lemma SendUsageKeeps(s: State, u: Usage, pair: Option<Pair>)
    requires Inv(s)
    ensures var d := SendUsage(s, u, pair);
      && Inv(d) && d.boot == s.boot
      && Shown(Since(d)).usage == Some(Meaningful(u))
      && (pair.Some? ==> Shown(Since(d)).session == pair)
  {
    hide Inv, Shown, Since, SendSession;
    var d := Write(s, UsageMessage(u)).(lastPushed := Some(Meaningful(u)));
    WriteKeeps(s, UsageMessage(u), d);
    SendSessionKeeps(d, pair);
  }

  lemma PollOnceKeeps(s: State, f: Fetch)
    requires Inv(s)
    ensures Inv(PollOnce(s, f)) && PollOnce(s, f).boot == s.boot
    ensures f.Read? ==> Shown(Since(PollOnce(s, f))).usage == Some(Meaningful(f.usage))
    ensures f.Read? && f.pair.Some? ==> Shown(Since(PollOnce(s, f))).session == f.pair
    ensures !f.Read? ==> Shown(Since(PollOnce(s, f))) == Shown(Since(s)) && PollOnce(s, f).lastPushed == s.lastPushed
  {
    hide Inv, Shown, Since, SendUsage;
    var t := Write(s, Time);
    WriteKeeps(s, Time, t);
    match f {
      case Raised(text) =>
        var m := StatusMessage(text[..if |text| < 80 then |text| else 80]);
        WriteKeeps(t, m, Write(t, m));
      case NothingYet =>
      case Read(u, pair) => SendUsageKeeps(t, u, pair);
    }
  }

  lemma BootForgets(s: State, report: Option<string>, f: Fetch)
    requires Inv(s)
    ensures Inv(s.(boot := |s.sent|, lastSession := None))
    ensures Greet(s.(boot := |s.sent|, lastSession := None), report, f) == Greet(s.(boot := |s.sent|), report, f)
    ensures Shown(Since(s.(boot := |s.sent|))) == View(None, None)
  {
  }

  lemma GreetKeeps(s: State, report: Option<string>, f: Fetch)
    requires Inv(s)
    ensures var d := Greet(s, report, f);
      && Inv(d) && d.boot == s.boot
      && (f.Read? ==> Shown(Since(d)).usage == Some(Meaningful(f.usage)))
      && (!f.Read? ==> Shown(Since(d)).usage == Shown(Since(s)).usage && d.lastPushed == s.lastPushed)
      && Shown(Since(d)).session == if f.Read? && f.pair.Some? then f.pair else Shown(Since(s)).session
  {
    hide Inv, Shown, Since, PollOnce;
    var s0 := s.(lastSession := None);
    Forgotten(s);
    var s1 := Write(s0, Welcome);
    WriteKeeps(s0, Welcome, s1);
    if report.Some? {
      WriteKeeps(s1, OtaError(report.value), Write(s1, OtaError(report.value)));
      PollOnceKeeps(Write(s1, OtaError(report.value)), f);
      PollOnceSession(Write(s1, OtaError(report.value)), f);
    } else {
      PollOnceKeeps(s1, f);
      PollOnceSession(s1, f);
    }
  }

  lemma Forgotten(s: State)
    requires Inv(s)
    ensures Inv(s.(lastSession := None)) && Since(s.(lastSession := None)) == Since(s)
  {
  }

  lemma LinkKeeps(s: State, another: bool)
    requires Inv(s)
    ensures var d := Next(s, Link(another));
      Inv(d) && d.lastPushed == None && Shown(Since(d)) == if another then View(None, None) else Shown(Since(s))
  {
    SinceOnly(Next(s, Link(another)), if another then s.(boot := |s.sent|) else s);
  }

  lemma NextKeeps(s: State, e: Event)
    requires Inv(s)
    ensures Inv(Next(s, e))
    ensures e.Boot? && !e.f.Read? ==> Shown(Since(Next(s, e))).usage == None && Next(s, e).lastPushed == s.lastPushed
    ensures e.Boot? && e.f.Read? ==> Shown(Since(Next(s, e))).usage == Some(Meaningful(e.f.usage))
  {
    match e {
      case Heartbeat(f) => PollOnceKeeps(s, f);
      case Tick(f) =>
        if f.Read? {
          SendUsageKeeps(s, f.usage, f.pair);
          SendSessionKeeps(s, f.pair);
        }
      case Boot(report, f) =>
        hide Inv, Shown, Since, Greet;
        var s0 := s.(boot := |s.sent|, lastSession := None);
        BootForgets(s, report, f);
        SinceOnly(s0, s.(boot := |s.sent|));
        GreetKeeps(s0, report, f);
      case Found(report, f) => GreetKeeps(s, report, f);
      case Link(another) => LinkKeeps(s, another);
    }
  }

  lemma {:induction false} RunKeeps(events: seq<Event>)
    ensures Inv(Run(START, events))
  {
    hide Inv, Next;
    if events == [] {
      StartKeeps();
    } else {
      RunKeeps(events[..|events| - 1]);
      NextKeeps(Run(START, events[..|events| - 1]), events[|events| - 1]);
    }
  }

  lemma StartKeeps()
    ensures Inv(START)
  {
  }

  /** After a poll of either kind that read something, whatever came before, the last
      usage on the wire says it, and the last session message names its project. */
  lemma WireIsCurrent(events: seq<Event>, e: Event)
    requires Reads(e)
    ensures var d := Run(START, events + [e]);
      && Shown(d.sent).usage == Some(Meaningful(e.f.usage))
      && (e.f.pair.Some? ==> Shown(d.sent).session == e.f.pair)
  {
    hide Next, Shown, Inv;
    RunKeeps(events);
    var s := Run(START, events);
    assert (events + [e])[..|events|] == events;
    NextKeeps(s, e);
    Remembered(s, e);
    InvWire(Next(s, e));
  }

  lemma InvWire(s: State)
    requires Inv(s)
    ensures s.lastPushed.Some? ==> Shown(s.sent).usage == s.lastPushed
    ensures s.lastSession.Some? ==> Shown(s.sent).session == s.lastSession
  {
    hide Shown;
  }

  lemma Remembered(s: State, e: Event)
    requires Reads(e)
    ensures Next(s, e).lastPushed == Some(Meaningful(e.f.usage))
    ensures e.f.pair.Some? ==> Next(s, e).lastSession == e.f.pair
  {
    hide PollOnce, Meaningful;
    match e {
      case Heartbeat(f) => ReadIsPushed(s, f);
      case Tick(f) =>
      case Boot(report, f) => GreetPushes(s.(boot := |s.sent|), report, f);
      case Found(report, f) => GreetPushes(s, report, f);
    }
  }

  lemma GreetPushes(s: State, report: Option<string>, f: Fetch)
    requires f.Read?
    ensures Greet(s, report, f).lastPushed == Some(Meaningful(f.usage))
    ensures f.pair.Some? ==> Greet(s, report, f).lastSession == f.pair
  {
    hide PollOnce, Meaningful;
    var s1 := Write(s, Welcome);
    var s2 := if report.Some? then Write(s1, OtaError(report.value)) else s1;
    ReadIsPushed(s2.(lastSession := None), f);
  }

  lemma ReadIsPushed(s: State, f: Fetch)
    requires f.Read?
    ensures PollOnce(s, f).lastPushed == Some(Meaningful(f.usage))
    ensures f.pair.Some? ==> PollOnce(s, f).lastSession == f.pair
  {
  }

  /** A second look at an unchanged desk writes nothing. */
  lemma UnchangedIsSilent(s: State, u: Usage, v: Usage, pair: Option<Pair>)
    requires Meaningful(u) == Meaningful(v)
    ensures var once := PollIfChanged(s, Read(u, pair)); PollIfChanged(once, Read(v, pair)) == once
  {
  }

  // --- what counts as news ---

  /** The members that move on their own. */
  predicate Clock(k: string) {
    || k == "age_s" || k == "p2_age_s" || k == "active_age_s"
    || k == "session_resets_in_s" || k == "weekly_resets_in_s" || k == "p2_s_in_s" || k == "p2_w_in_s"
  }

  /** Alike in every member but the clocks. */
  ghost predicate SameNews(u: Usage, v: Usage) {
    forall k :: !Clock(k) ==> (k in u <==> k in v) && (k in u ==> u[k] == v[k])
  }

  lemma NewsIsMeaningful(u: Usage, v: Usage)
    ensures SameNews(u, v) <==> Meaningful(u) == Meaningful(v)
  {
    forall k
      ensures Clock(k) <==> k in VOLATILE
    {
    }
    if Meaningful(u) == Meaningful(v) {
      forall k | !Clock(k)
        ensures (k in u <==> k in v) && (k in u ==> u[k] == v[k])
      {
        assert k in u <==> k in Meaningful(u);
        assert k in v <==> k in Meaningful(v);
        assert k in u ==> Meaningful(u)[k] == u[k];
        assert k in v ==> Meaningful(v)[k] == v[k];
      }
    }
  }

  /** After any poll of either kind that read something, the last usage on the wire has
      every member of the reading but the clocks, with its value, and no other. */
  lemma WireSaysTheReading(events: seq<Event>, e: Event)
    requires Reads(e)
    ensures var u := LastUsage(Run(START, events + [e]).sent);
      u.Some? && SameNews(u.value, e.f.usage)
  {
    hide Run, Meaningful;
    WireIsCurrent(events, e);
    var u := LastUsage(Run(START, events + [e]).sent);
    if u.Some? { NewsIsMeaningful(u.value, e.f.usage); }
  }

  function Usages(sent: seq<Message>): nat {
    if sent == [] then 0 else Usages(sent[..|sent| - 1]) + if sent[|sent| - 1].UsageMessage? then 1 else 0
  }

  /** A fast tick writes a usage exactly when what it reads differs from the reading
      before it in some member that is not a clock; a heartbeat and a greeting always do. */
  lemma NewsIsWrittenIff(events: seq<Event>, before: Event, e: Event)
    requires Reads(before) && Reads(e)
    ensures var s := Run(START, events + [before]); var d := Next(s, e);
      Usages(d.sent) == Usages(s.sent) + if e.Tick? && SameNews(e.f.usage, before.f.usage) then 0 else 1
  {
    hide Meaningful, Usages, SendUsage, SendSession, SameNews;
    assert (events + [before])[..|events|] == events;
    Remembered(Run(START, events), before);
    NewsIsMeaningful(e.f.usage, before.f.usage);
    UsageWritten(Run(START, events + [before]), e);
  }

  lemma UsageWritten(s: State, e: Event)
    requires Reads(e)
    ensures Usages(Next(s, e).sent) ==
            Usages(s.sent) + if e.Tick? && s.lastPushed == Some(Meaningful(e.f.usage)) then 0 else 1
  {
    hide Meaningful, Usages;
    match e {
      case Heartbeat(f) => PollWrites(s, f);
      case Tick(f) => SendWrites(s, f.usage, f.pair);
      case Boot(report, f) => GreetWrites(s.(boot := |s.sent|), report, f);
      case Found(report, f) => GreetWrites(s, report, f);
    }
  }

  lemma UsagesMore(s: State, m: Message)
    ensures Usages(Write(s, m).sent) == Usages(s.sent) + if m.UsageMessage? then 1 else 0
  {
    assert (s.sent + [m])[..|s.sent|] == s.sent;
  }

  lemma SendWrites(s: State, u: Usage, pair: Option<Pair>)
    ensures Usages(SendSession(s, pair).sent) == Usages(s.sent)
    ensures Usages(SendUsage(s, u, pair).sent) == Usages(s.sent) + 1
  {
    hide Meaningful, Usages;
    var t := Write(s, UsageMessage(u)).(lastPushed := Some(Meaningful(u)));
    UsagesMore(s, UsageMessage(u));
    if pair.Some? {
      UsagesMore(s, SessionMessage(pair.value));
      UsagesMore(t, SessionMessage(pair.value));
    }
  }

  lemma PollWrites(s: State, f: Fetch)
    requires f.Read?
    ensures Usages(PollOnce(s, f).sent) == Usages(s.sent) + 1
  {
    hide Meaningful, Usages, SendUsage;
    UsagesMore(s, Time);
    SendWrites(Write(s, Time), f.usage, f.pair);
  }

  lemma GreetWrites(s: State, report: Option<string>, f: Fetch)
    requires f.Read?
    ensures Usages(Greet(s, report, f).sent) == Usages(s.sent) + 1
  {
    hide Meaningful, Usages, PollOnce;
    var s1 := Write(s, Welcome);
    UsagesMore(s, Welcome);
    if report.Some? { UsagesMore(s1, OtaError(report.value)); }
    var s2 := if report.Some? then Write(s1, OtaError(report.value)) else s1;
    PollWrites(s2.(lastSession := None), f);
  }

  /** The text, or its first 80 characters. */
  ghost predicate Detail(text: string, detail: string) {
    detail <= text && |detail| <= 80 && (detail == text || |detail| == 80)
  }

  /** Every heartbeat tells the time first; then the reading, or the failure in at most
      80 characters, or nothing. A fast tick that reads nothing is silent. */
  lemma HeartbeatSays(s: State, f: Fetch)
    ensures var d := PollOnce(s, f);
      && s.sent + [Time] <= d.sent
      && (f.NothingYet? ==> d.sent == s.sent + [Time])
      && (f.Raised? ==> exists detail :: Detail(f.text, detail) && d.sent == s.sent + [Time, StatusMessage(detail)])
      && (f.Read? ==> s.sent + [Time, UsageMessage(f.usage)] <= d.sent)
    ensures !f.Read? ==> PollIfChanged(s, f) == s
  {
    if f.Raised? {
      var detail := f.text[..if |f.text| < 80 then |f.text| else 80];
      assert PollOnce(s, f).sent == s.sent + [Time, StatusMessage(detail)];
    }
  }

  // --- refining one that resends everything ---

  /** The simple daemon: every look says everything. */
  function SayAll(s: State, f: Fetch): State {
    if f.Read? then
      var t := Write(s, UsageMessage(f.usage));
      if f.pair.Some? then Write(t, SessionMessage(f.pair.value)) else t
    else s
  }

  function Simple(s: State, e: Event): State {
    match e
    case Boot(_, f) => SayAll(s.(boot := |s.sent|), f)
    case Link(another) => if another then s.(boot := |s.sent|) else s
    case _ => SayAll(s, e.f)
  }

  function RunSimple(s: State, events: seq<Event>): State {
    if events == [] then s else Simple(RunSimple(s, events[..|events| - 1]), events[|events| - 1])
  }

  lemma SayAllShows(s: State, f: Fetch)
    requires s.boot <= |s.sent|
    ensures var d := SayAll(s, f);
      && d.boot == s.boot <= |d.sent|
      && Shown(Since(d)) ==
         if f.Read? then View(Some(Meaningful(f.usage)), if f.pair.Some? then f.pair else Shown(Since(s)).session)
         else Shown(Since(s))
  {
    if f.Read? {
      hide Shown, Since, Meaningful;
      var t := Write(s, UsageMessage(f.usage));
      WriteShows(s, UsageMessage(f.usage));
      ShownMore(Since(s), UsageMessage(f.usage));
      if f.pair.Some? {
        WriteShows(t, SessionMessage(f.pair.value));
        ShownMore(Since(t), SessionMessage(f.pair.value));
      }
    }
  }

  /** Every start of the board was greeted with a reading. */
  predicate Greeted(events: seq<Event>) {
    forall i | 0 <= i < |events| :: events[i].Boot? ==> events[i].f.Read?
  }

  /** The panel since its start shows what the simple daemon's would, at every moment
      of every run in which each start found something to read. */
  lemma {:induction false} RefinesResending(events: seq<Event>)
    requires Greeted(events)
    ensures Inv(Run(START, events))
    ensures RunSimple(START, events).boot <= |RunSimple(START, events).sent|
    ensures Shown(Since(Run(START, events))) == Shown(Since(RunSimple(START, events)))
    ensures var s := Run(START, events); s.lastPushed.Some? ==> Shown(Since(s)).usage == s.lastPushed
  {
    hide Inv, Next, Shown, Since, Meaningful, Simple;
    if events == [] {
      StartKeeps();
    } else {
      var n := |events| - 1;
      var before, e := events[..n], events[n];
      RefinesResending(before);
      assert Greeted(before);
      NextRefines(Run(START, before), RunSimple(START, before), e);
    }
  }

  lemma NextRefines(s: State, r: State, e: Event)
    requires Inv(s) && r.boot <= |r.sent| && (e.Boot? ==> e.f.Read?)
    requires Shown(Since(s)) == Shown(Since(r))
    requires s.lastPushed.Some? ==> Shown(Since(s)).usage == s.lastPushed
    ensures var d, q := Next(s, e), Simple(r, e);
      && Inv(d) && q.boot <= |q.sent|
      && Shown(Since(d)) == Shown(Since(q))
      && (d.lastPushed.Some? ==> Shown(Since(d)).usage == d.lastPushed)
  {
    NextKeeps(s, e);
    SessionShown(s, e);
    hide Shown, Since, Inv, PollOnce, PollIfChanged, Greet;
    match e {
      case Heartbeat(f) => SayAllShows(r, f); PollOnceKeeps(s, f);
      case Tick(f) => SayAllShows(r, f); TickShows(s, f);
      case Boot(report, f) =>
        SayAllShows(r.(boot := |r.sent|), f);
        NowhereYet(r);
        GreetPushes(s.(boot := |s.sent|), report, f);
      case Found(report, f) =>
        SayAllShows(r, f);
        GreetKeeps(s, report, f);
        if f.Read? { GreetPushes(s, report, f); }
      case Link(another) =>
        NowhereYet(r);
        LinkKeeps(s, another);
    }
  }

  lemma NowhereYet(s: State)
    ensures Shown(Since(s.(boot := |s.sent|))) == View(None, None)
  {
  }

  lemma TickShows(s: State, f: Fetch)
    requires Inv(s) && (s.lastPushed.Some? ==> Shown(Since(s)).usage == s.lastPushed)
    ensures f.Read? ==> Shown(Since(PollIfChanged(s, f))).usage == Some(Meaningful(f.usage)) == PollIfChanged(s, f).lastPushed
    ensures !f.Read? ==> PollIfChanged(s, f) == s
  {
    hide Shown, Since;
    if f.Read? {
      SendUsageKeeps(s, f.usage, f.pair);
      SendSessionKeeps(s, f.pair);
    }
  }

  /** The project shown after each event. */
  lemma SessionShown(s: State, e: Event)
    requires Inv(s)
    ensures Shown(Since(Next(s, e))).session ==
      if Reads(e) && e.f.pair.Some? then e.f.pair
      else if e.Boot? || e == Link(true) then None
      else Shown(Since(s)).session
  {
    hide Inv, Shown, Since, Meaningful;
    match e {
      case Heartbeat(f) => PollOnceSession(s, f);
      case Tick(f) =>
        if f.Read? {
          SendUsageKeeps(s, f.usage, f.pair);
          SendSessionKeeps(s, f.pair);
          SendUsageSession(s, f.usage, f.pair);
        }
      case Boot(report, f) =>
        var s0 := s.(boot := |s.sent|, lastSession := None);
        BootForgets(s, report, f);
        SinceOnly(s0, s.(boot := |s.sent|));
        GreetKeeps(s0, report, f);
      case Found(report, f) => GreetKeeps(s, report, f);
      case Link(another) => LinkKeeps(s, another);
    }
  }

  lemma SendUsageSession(s: State, u: Usage, pair: Option<Pair>)
    requires Inv(s)
    ensures pair.None? ==> Shown(Since(SendUsage(s, u, pair))).session == Shown(Since(s)).session
  {
    hide Shown, Since, Meaningful;
    var d := Write(s, UsageMessage(u)).(lastPushed := Some(Meaningful(u)));
    WriteKeeps(s, UsageMessage(u), d);
  }

  lemma PollOnceSession(s: State, f: Fetch)
    requires Inv(s)
    ensures Shown(Since(PollOnce(s, f))).session ==
            if f.Read? && f.pair.Some? then f.pair else Shown(Since(s)).session
  {
    hide Inv, Shown, Since, Meaningful;
    PollOnceKeeps(s, f);
    var t := Write(s, Time);
    WriteKeeps(s, Time, t);
    if f.Read? {
      SendUsageSession(t, f.usage, f.pair);
    }
  }

  /** A start with nothing to read leaves the panel blank, and the fast ticks after it
      fill it exactly when what they read is not what was last pushed to the board
      before it started: the memory of that push survives the start. */
  lemma BlankAfterStartIff(events: seq<Event>, report: Option<string>, f: Fetch, u: Usage, pair: Option<Pair>)
    requires !f.Read?
    ensures var s := Run(START, events); var d := Run(START, events + [Boot(report, f), Tick(Read(u, pair))]);
      Shown(Since(d)).usage == Some(Meaningful(u)) <==> s.lastPushed != Some(Meaningful(u))
  {
    hide Next, Shown, Since, Meaningful;
    var s := Run(START, events);
    var boot, tick := Boot(report, f), Tick(Read(u, pair));
    assert (events + [boot, tick])[..|events| + 1] == events + [boot];
    assert (events + [boot])[..|events|] == events;
    RunKeeps(events);
    BlankTick(s, report, f, u, pair);
  }

  lemma BlankTick(s: State, report: Option<string>, f: Fetch, u: Usage, pair: Option<Pair>)
    requires Inv(s) && !f.Read?
    ensures var d := Next(Next(s, Boot(report, f)), Tick(Read(u, pair)));
      Shown(Since(d)).usage == Some(Meaningful(u)) <==> s.lastPushed != Some(Meaningful(u))
  {
    hide Shown, Since, Meaningful, Inv, Greet, SendUsage, SendSession;
    NextKeeps(s, Boot(report, f));
    var b := Next(s, Boot(report, f));
    SendUsageKeeps(b, u, pair);
    SendSessionKeeps(b, pair);
  }

  // --- the bridge ---

  /** The outbound half of the bridge. */
  class Pusher {
    var lastSession: Option<Pair>
    var lastPushed: Option<Usage>
    var sent: seq<Message>
    ghost var boot: nat

    ghost function Model(): State
      reads this
    {
      State(lastSession, lastPushed, sent, boot)
    }

    /** A bridge for a new link, after what earlier ones wrote. */
    constructor (wire: seq<Message>, ghost start: nat)
      ensures Model() == State(None, None, wire, start)
    {
      lastSession, lastPushed, sent, boot := None, None, wire, start;
    }

    method SendSessionIfChanged(pair: Option<Pair>)
      modifies this
      ensures Model() == SendSession(old(Model()), pair)
    {
      if pair.None? { return; }
      if lastSession != pair {
        sent := sent + [SessionMessage(pair.value)];
        lastSession := pair;
      }
    }

    method DoSendUsage(u: Usage, pair: Option<Pair>)
      modifies this
      ensures Model() == SendUsage(old(Model()), u, pair)
    {
      sent := sent + [UsageMessage(u)];
      lastPushed := Some(Meaningful(u));
      SendSessionIfChanged(pair);
    }

    method DoPollOnce(f: Fetch)
      modifies this
      ensures Model() == PollOnce(old(Model()), f)
    {
      hide SendUsage, Meaningful;
      sent := sent + [Time];
      match f {
        case Raised(text) => sent := sent + [StatusMessage(text[..if |text| < 80 then |text| else 80])];
        case NothingYet =>
        case Read(u, pair) => DoSendUsage(u, pair);
      }
    }

    method DoPollIfChanged(f: Fetch)
      modifies this
      ensures Model() == PollIfChanged(old(Model()), f)
    {
      hide SendUsage, SendSession, Meaningful;
      if !f.Read? { return; }
      if lastPushed != Some(Meaningful(f.usage)) {
        DoSendUsage(f.usage, f.pair);
        return;
      }
      SendSessionIfChanged(f.pair);
    }

    method DoGreet(report: Option<string>, f: Fetch, ghost started: bool)
      modifies this
      ensures Model() == Next(old(Model()), if started then Boot(report, f) else Found(report, f))
    {
      hide PollOnce;
      if started { boot := |sent|; }
      sent := sent + [Welcome];
      if report.Some? {
        sent := sent + [OtaError(report.value)];
      }
      lastSession := None;
      DoPollOnce(f);
    }
  }
}
