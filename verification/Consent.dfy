/** Board-initiated updates: one tap, up to two installs and a restart between them.
    What was agreed to, what is written to the board, and what survives on disk. */
module Consent {
  import opened Bytes
  import opened Wrappers

  const RESUME_TRIES: nat := 3
  const QUIET_S: int := 60
  const RETRY_AFTER_S: int := 120

  datatype Manifest = Manifest(version: string, size: nat, sha256: string, protoMin: Option<int>)

  /** The signed release: its daemon version and this platform's build, if it has one. */
  datatype Signed = Signed(version: string, artifact: Option<string>)

  datatype Note = Note(version: string, tries: nat)

  datatype Message =
    | Welcome
    | OtaError(why: string)
    | OtaNone(app: Option<string>)
    | OtaAvail(version: string, size: nat, sha256: string, app: Option<string>)
    | OtaResume(version: string)
    | OtaBegin(version: string)
    | Pong

  /** Everything the daemon does, in the order it does it. `Tapped` is the board's
      approval, with the version then staged; `Replace` ends this process. */
  datatype Effect =
    | Say(message: Message)
    | Tapped(staged: Option<string>)
    | Approve(version: string)
    | Bump
    | Spend
    | Replace(app: string)
    | Flash(manifest: Manifest, blob: bytes)

  datatype Flow = On | Reflashed | Restarted

  /** What does not change while the program runs. `parts` reads a version,
      `sha256` is the digest in hex, `plain` trims and lower-cases. */
  datatype Config = Config(
    proto: int, selfUpdates: bool, flashes: bool, remembers: bool, platformKnown: bool,
    parts: string -> Option<seq<int>>, sha256: bytes -> string, plain: string -> string)

  datatype State = State(
    first: string, app: string, note: Option<Note>, done: seq<Effect>, flow: Flow,
    manifest: Option<Manifest>, appUpdate: Option<string>,
    proto: Option<int>, fw: string,
    failedAt: Option<int>, lastQueryAt: Option<int>, report: Option<string>)

  datatype QueryAnswer = QueryAnswer(manifest: Option<Manifest>, signed: Option<Signed>)

  /** Whether the self-update took, what the download gave, whether flashing returns. */
  datatype FlashAnswer = FlashAnswer(updated: bool, firmware: Option<bytes>, comesBack: bool)

  datatype Answers = Answers(now: int, q1: QueryAnswer, f1: FlashAnswer, q2: QueryAnswer, f2: FlashAnswer)

  // --- versions ---

  predicate Less(a: seq<int>, b: seq<int>) {
    b != [] && (a == [] || a[0] < b[0] || (a[0] == b[0] && Less(a[1..], b[1..])))
  }

  predicate Proper(c: Config, v: string) {
    c.parts(v).Some? && |c.parts(v).value| == 3
  }

  predicate Newer(c: Config, cand: string, cur: string) {
    Proper(c, cand) && Proper(c, cur) && Less(c.parts(cur).value, c.parts(cand).value)
  }

  // --- effects ---

  function NoteAfter(note: Option<Note>, e: Effect): Option<Note> {
    match e
    case Approve(v) => Some(Note(v, 0))
    case Spend => None
    case Bump => if note.Some? && note.value.version != "" then Some(note.value.(tries := note.value.tries + 1)) else note
    case _ => note
  }

  /** The note on a disk that began without one. */
  function NoteOf(done: seq<Effect>): Option<Note> {
    if done == [] then None else NoteAfter(NoteOf(done[..|done| - 1]), done[|done| - 1])
  }

  function AppOf(app: string, done: seq<Effect>): string {
    if done == [] then app
    else if done[|done| - 1].Replace? then done[|done| - 1].app
    else AppOf(app, done[..|done| - 1])
  }

  function Do(b: State, e: Effect): State {
    b.(done := b.done + [e],
       note := NoteAfter(b.note, e),
       app := if e.Replace? then e.app else b.app)
  }

  /** The readable note; an empty version reads as no note. */
  function Readable(b: State): Option<Note> {
    if b.note.Some? && b.note.value.version != "" then b.note else None
  }

  // --- the query ---

  predicate Ahead(c: Config, b: State) {
    b.proto.Some? && b.proto.value > c.proto
  }

  function Reset(b: State, now: int): State {
    b.(manifest := None, failedAt := Some(now))
  }

  function AppAvailable(c: Config, b: State, q: QueryAnswer): Option<string> {
    if c.selfUpdates && q.signed.Some? && Newer(c, q.signed.value.version, b.app) && q.signed.value.artifact.Some?
    then Some(q.signed.value.version) else None
  }

  /** This app can be brought level with the release, or need not be. */
  predicate Pairs(c: Config, b: State, version: string, app: Option<string>) {
    !Newer(c, version, b.app) || !c.selfUpdates || !c.platformKnown || app.Some?
  }

  function AskedOf(b: State, cur: string, now: int): State {
    b.(lastQueryAt := Some(now), failedAt := None, fw := if cur != "" && b.fw == "" then cur else b.fw)
  }

  /** The release wants a newer protocol to be installed over than this app speaks. */
  predicate Floored(c: Config, q: QueryAnswer) {
    q.manifest.Some? && !FloorMet(c, q.manifest.value)
  }

  predicate FloorMet(c: Config, m: Manifest) {
    m.protoMin.None? || m.protoMin.value <= c.proto
  }

  function Decline(b: State, now: int, app: Option<string>): State {
    Do(Reset(b, now), Say(OtaNone(app)))
  }

  /** Nothing newer, a release this app cannot be paired with, or an offer. */
  function Decide(c: Config, b: State, cur: string, now: int, q: QueryAnswer): State {
    var app := AppAvailable(c, b, q);
    if q.manifest.None? || !Newer(c, q.manifest.value.version, cur) then
      Do(b.(appUpdate := app, manifest := None), Say(OtaNone(app)))
    else
      var m := q.manifest.value;
      var staged := b.(manifest := Some(m), appUpdate := app);
      if !Pairs(c, b, m.version, app) then Decline(staged, now, app)
      else Do(staged, Say(OtaAvail(m.version, m.size, m.sha256, app)))
  }

  function Query(c: Config, b: State, cur: string, now: int, q: QueryAnswer): State {
    var b1 := AskedOf(b, cur, now);
    if Ahead(c, b1) || Floored(c, q) then Decline(b1, now, None) else Decide(c, b1, cur, now, q)
  }

  // --- the flash ---

  function Refuse(b: State, now: int, why: string): State {
    Do(Reset(b, now), Say(OtaError(why)))
  }

  predicate Matches(c: Config, m: Manifest, blob: bytes) {
    |blob| == m.size && c.sha256(blob) == c.plain(m.sha256)
  }

  function WriteImage(c: Config, b: State, now: int, f: FlashAnswer): State {
    if b.manifest.None? then Do(b, Say(OtaError("nothing staged")))
    else if !c.flashes then Do(b, Say(OtaError("no flasher configured")))
    else if f.firmware.None? then Refuse(b, now, "download failed")
    else if |f.firmware.value| != b.manifest.value.size then Refuse(b, now, "size mismatch")
    else if c.sha256(f.firmware.value) != c.plain(b.manifest.value.sha256) then Refuse(b, now, "sha256 mismatch")
    else
      var m := b.manifest.value;
      Do(Do(Reset(b, now), Say(OtaBegin(m.version))), Flash(m, f.firmware.value))
        .(flow := if f.comesBack then On else Reflashed)
  }

  function Remember(c: Config, b: State, e: Effect): State {
    if c.remembers then Do(b, e) else b
  }

  function FlashNow(c: Config, b: State, now: int, f: FlashAnswer): State {
    if b.manifest.Some? && b.appUpdate.Some? && c.selfUpdates then
      var b1 := Remember(c, b.(appUpdate := None), Approve(b.manifest.value.version));
      if f.updated then Do(b1, Replace(b.appUpdate.value)).(flow := Restarted)
      else WriteImage(c, Remember(c, b1, Spend), now, f)
    else WriteImage(c, b, now, f)
  }

  // --- the resume ---

  function Resume(c: Config, b: State, now: int, q: QueryAnswer, f: FlashAnswer): State {
    if !c.remembers || Readable(b).None? then b
    else
      var note := Readable(b).value;
      var b1 := Query(c, b, if b.fw == "" then "0.0.0" else b.fw, now, q);
      if b1.manifest.None? then
        Reset(if note.tries + 1 >= RESUME_TRIES
              then Do(Do(b1, Spend), Say(OtaError("could not read the release feed")))
              else Do(b1, Bump), now)
      else if b1.manifest.value.version != note.version then Reset(Do(b1, Spend), now)
      else FlashNow(c, Do(Do(b1, Spend), Say(OtaResume(note.version))), now, f)
  }

  // --- messages ---

  datatype Kind = Ping | Asked(cur: string) | Tap | Hello(fw: string) | Other

  function Greet(c: Config, b: State, a: Answers): State {
    var b1 := Do(b, Say(Welcome));
    var b2 := if b1.report.Some? then Do(b1, Say(OtaError(b1.report.value))).(report := None) else b1;
    if b2.proto.Some? then Resume(c, b2, a.now, a.q1, a.f1) else b2
  }

  function OfferIfNewer(c: Config, b: State, fw: string, a: Answers): State {
    if fw == "" || (b.lastQueryAt.Some? && a.now - b.lastQueryAt.value < QUIET_S) then b
    else Query(c, b, fw, a.now, a.q2)
  }

  /** The first message with a number arms the guard and picks up an approval. */
  function Learn(c: Config, b: State, v: Option<int>, hello: bool, a: Answers): State {
    if b.proto.Some? || v.None? then b
    else
      var b1 := b.(proto := v);
      if hello then b1 else Resume(c, b1, a.now, a.q1, a.f1)
  }

  function Handle(c: Config, b: State, v: Option<int>, kind: Kind, a: Answers): State {
    match kind
    case Ping => Do(b, Say(Pong))
    case Asked(cur) => Query(c, b, cur, a.now, a.q2)
    case Tap => FlashNow(c, Do(b, Tapped(if b.manifest.Some? then Some(b.manifest.value.version) else None)), a.now, a.f2)
    case Hello(fw) =>
      var b1 := Greet(c, b.(proto := v, fw := fw), a);
      if b1.flow.On? then OfferIfNewer(c, b1, fw, a) else b1
    case Other => b
  }

  function OnMessage(c: Config, b: State, v: Option<int>, kind: Kind, a: Answers): State {
    var b1 := Learn(c, b, v, kind.Hello?, a);
    if b1.flow.On? then Handle(c, b1, v, kind, a) else b1
  }

  // --- runs ---

  datatype Event =
    | Heard(v: Option<int>, kind: Kind, answers: Answers)
    | FoundRunning(fw: string, answers: Answers)   // greeted without a reset, then offered
    | RetryTick(answers: Answers)
    | Connect(report: Option<string>)              // a new link, or a new process
    | Killed(during: Event, kept: nat)             // the process dies with part of it done

  function Fresh(b: State, report: Option<string>): State {
    State(b.first, b.app, b.note, b.done, On, None, None, None, "", None, None, report)
  }

  function Next(c: Config, b: State, e: Event): State {
    match e
    case Connect(report) => Fresh(b, report)
    case Heard(v, kind, a) => if b.flow.On? then OnMessage(c, b, v, kind, a) else b
    case FoundRunning(fw, a) =>
      if !b.flow.On? then b
      else
        var b1 := Greet(c, b, a);
        if b1.flow.On? then OfferIfNewer(c, b1, fw, a) else b1
    case RetryTick(a) =>
      if !b.flow.On? || b.failedAt.None? || b.fw == "" || a.now - b.failedAt.value < RETRY_AFTER_S then b
      else Query(c, b.(failedAt := None), b.fw, a.now, a.q2)
    case Killed(during, kept) =>
      var d := Next(c, b, during);
      var done := if |b.done| <= kept <= |d.done| then d.done[..kept] else d.done;
      Fresh(b.(done := done, note := NoteOf(done), app := AppOf(b.first, done)), None)
  }

  function Run(c: Config, b: State, events: seq<Event>): State
    decreases |events|
  {
    if events == [] then b else Run(c, Next(c, b, events[0]), events[1..])
  }

  function Start(app: string): State {
    State(app, app, None, [], On, None, None, None, "", None, None, None)
  }

  // --- consent is conserved ---

  /** Counting one version, or with None every version. */
  predicate Counts(sel: Option<string>, v: string) {
    sel.None? || sel.value == v
  }

  /** Taps on a staged version, less installs. */
  function Given(done: seq<Effect>, sel: Option<string>): int {
    if done == [] then 0 else Given(done[..|done| - 1], sel) + Gain(done[|done| - 1], sel)
  }

  function Gain(e: Effect, sel: Option<string>): int {
    match e
    case Tapped(staged) => if staged.Some? && Counts(sel, staged.value) then 1 else 0
    case Flash(m, _) => if Counts(sel, m.version) then -1 else 0
    case _ => 0
  }

  function Pending(note: Option<Note>, sel: Option<string>): nat {
    if note.Some? && Counts(sel, note.value.version) then 1 else 0
  }

  /** Taps less installs, less one while a note is on disk. */
  function Credit(done: seq<Effect>, sel: Option<string>): int {
    Given(done, sel) - Pending(NoteOf(done), sel)
  }

  /** At every moment so far, wherever the process might have died: no version, and
      no versions together, were installed or left approved more often than tapped. */
  ghost predicate Consented(done: seq<Effect>) {
    forall k, sel :: 0 <= k <= |done| ==> Credit(done[..k], sel) >= 0
  }

  ghost predicate FlashesMatch(c: Config, done: seq<Effect>) {
    forall i :: 0 <= i < |done| && done[i].Flash? ==>
      Matches(c, done[i].manifest, done[i].blob) && FloorMet(c, done[i].manifest)
  }

  /** Each self-update is to a later version than the program it replaces. */
  ghost predicate Rises(c: Config, app: string, done: seq<Effect>) {
    forall i :: 0 <= i < |done| && done[i].Replace? ==> Newer(c, done[i].app, AppOf(app, done[..i]))
  }

  ghost predicate Inv(c: Config, app: string, b: State) {
    && b.note == NoteOf(b.done) && b.app == AppOf(app, b.done)
    && Consented(b.done)
    && FlashesMatch(c, b.done)
    && Rises(c, app, b.done)
    && TriesBounded(b.done)
    && b.first == app
    && Staged(c, b)
  }

  /** Whenever the process dies, the note has tries left. */
  ghost predicate TriesBounded(done: seq<Effect>) {
    forall k :: 0 <= k <= |done| && NoteOf(done[..k]).Some? ==> NoteOf(done[..k]).value.tries < RESUME_TRIES
  }

  predicate Staged(c: Config, b: State) {
    && (b.manifest.Some? ==> FloorMet(c, b.manifest.value))
    && (b.appUpdate.Some? ==> Newer(c, b.appUpdate.value, b.app))
  }

  /** A tap for `v` is in hand: neither installed yet nor on disk. */
  ghost predicate InHand(b: State, v: string) {
    Credit(b.done, Some(v)) >= 1 && Credit(b.done, None) >= 1
  }

  ghost predicate Allowed(c: Config, b: State, e: Effect) {
    match e
    case Approve(v) => InHand(b, v)
    case Bump => b.note.Some? ==> b.note.value.tries + 1 < RESUME_TRIES
    case Replace(app) => Newer(c, app, b.app) && b.appUpdate.None?
    case Flash(m, blob) => InHand(b, m.version) && Matches(c, m, blob) && FloorMet(c, m)
    case _ => true
  }

  lemma DoDone(app: string, done: seq<Effect>, e: Effect)
    ensures NoteOf(done + [e]) == NoteAfter(NoteOf(done), e)
    ensures AppOf(app, done + [e]) == if e.Replace? then e.app else AppOf(app, done)
    ensures forall sel :: Given(done + [e], sel) == Given(done, sel) + Gain(e, sel)
  {
    assert (done + [e])[..|done|] == done;
  }

  /** What one effect does to every count. */
  lemma CreditAfter(done: seq<Effect>, e: Effect, sel: Option<string>)
    ensures Credit(done + [e], sel) == Credit(done, sel) + Gain(e, sel)
            + Pending(NoteOf(done), sel) - Pending(NoteAfter(NoteOf(done), e), sel)
  {
    hide Gain, Pending, NoteOf, Given, NoteAfter;
    DoDone("", done, e);
  }

  lemma ConsentedMore(done: seq<Effect>, e: Effect)
    requires Consented(done) && forall sel :: Credit(done + [e], sel) >= 0
    ensures Consented(done + [e])
  {
    hide Credit;
    forall k, sel | 0 <= k <= |done| + 1
      ensures Credit((done + [e])[..k], sel) >= 0
    {
      if k <= |done| {
        assert (done + [e])[..k] == done[..k];
      } else {
        assert (done + [e])[..k] == done + [e];
      }
    }
  }

  lemma ConsentedNow(done: seq<Effect>, sel: Option<string>)
    requires Consented(done)
    ensures Credit(done, sel) >= 0
  {
    assert done[..|done|] == done;
  }

  lemma AllowedCredit(c: Config, b: State, e: Effect, sel: Option<string>)
    requires Allowed(c, b, e) && Credit(b.done, sel) >= 0
    ensures Credit(b.done, sel) + Gain(e, sel) + Pending(b.note, sel) - Pending(NoteAfter(b.note, e), sel) >= 0
  {
    hide Credit;
    assert sel.None? || sel == Some(sel.value);
    match e {
      case Approve(v) =>
        if Counts(sel, v) { assert Credit(b.done, sel) >= 1; }
      case Flash(m, blob) =>
        if Counts(sel, m.version) { assert Credit(b.done, sel) >= 1; }
      case _ =>
    }
  }

  lemma DoConsents(c: Config, b: State, e: Effect)
    requires b.note == NoteOf(b.done) && Consented(b.done) && Allowed(c, b, e)
    ensures Consented(b.done + [e])
  {
    hide Credit, Consented;
    forall sel
      ensures Credit(b.done + [e], sel) >= 0
    {
      CreditAfter(b.done, e, sel);
      ConsentedNow(b.done, sel);
      AllowedCredit(c, b, e, sel);
    }
    ConsentedMore(b.done, e);
  }

  lemma DoRises(c: Config, app: string, b: State, e: Effect)
    requires b.app == AppOf(app, b.done) && Rises(c, app, b.done) && Allowed(c, b, e)
    ensures Rises(c, app, b.done + [e])
  {
    hide Newer, AppOf, InHand;
    var more := b.done + [e];
    forall i | 0 <= i < |more| && more[i].Replace?
      ensures Newer(c, more[i].app, AppOf(app, more[..i]))
    {
      if i < |b.done| {
        assert more[..i] == b.done[..i];
      } else {
        assert more[..i] == b.done;
      }
    }
  }

  lemma DoTries(c: Config, b: State, e: Effect)
    requires b.note == NoteOf(b.done) && TriesBounded(b.done) && Allowed(c, b, e)
    ensures TriesBounded(b.done + [e])
  {
    hide NoteOf, InHand, Newer, Matches, FloorMet;
    var more := b.done + [e];
    DoDone("", b.done, e);
    assert b.done[..|b.done|] == b.done;
    forall k | 0 <= k <= |more|
      ensures NoteOf(more[..k]).Some? ==> NoteOf(more[..k]).value.tries < RESUME_TRIES
    {
      if k <= |b.done| {
        assert more[..k] == b.done[..k];
      } else {
        assert more[..k] == more;
      }
    }
  }

  lemma DoKeeps(c: Config, app: string, b: State, e: Effect)
    requires Inv(c, app, b) && Allowed(c, b, e)
    ensures Inv(c, app, Do(b, e))
  {
    hide Consented, Rises, TriesBounded, Newer, Matches, FloorMet, InHand, NoteOf, AppOf;
    DoTries(c, b, e);
    DoConsents(c, b, e);
    DoRises(c, app, b, e);
    DoDone(app, b.done, e);
  }

  lemma Restage(c: Config, app: string, b: State, d: State)
    requires Inv(c, app, b) && Staged(c, d)
    requires d.done == b.done && d.note == b.note && d.app == b.app && d.first == b.first
    ensures Inv(c, app, d)
  {
  }

  lemma InvStaged(c: Config, app: string, b: State)
    requires Inv(c, app, b)
    ensures Staged(c, b) && (b.note.Some? ==> b.note.value.tries < RESUME_TRIES)
  {
    hide Consented, FlashesMatch, Rises, Staged;
    assert b.done[..|b.done|] == b.done;
  }

  /** Saying something changes no count and nothing staged. */
  lemma SayKeeps(c: Config, app: string, b: State, m: Message)
    requires Inv(c, app, b)
    ensures Inv(c, app, Do(b, Say(m)))
    ensures forall v :: InHand(b, v) ==> InHand(Do(b, Say(m)), v)
  {
    hide Inv, Credit;
    DoKeeps(c, app, b, Say(m));
    forall sel ensures Credit(b.done + [Say(m)], sel) == Credit(b.done, sel) {
      CreditAfter(b.done, Say(m), sel);
    }
  }

  lemma QueryKeeps(c: Config, app: string, b: State, cur: string, now: int, q: QueryAnswer)
    requires Inv(c, app, b)
    ensures var d := Query(c, b, cur, now, q);
      Inv(c, app, d) && d.note == b.note && d.flow == b.flow && d.proto == b.proto
  {
    hide Inv, Newer, Pairs, Decide, Do;
    InvStaged(c, app, b);
    var b1 := AskedOf(b, cur, now);
    Restage(c, app, b, b1);
    if Ahead(c, b1) || Floored(c, q) {
      Restage(c, app, b1, Reset(b1, now));
      SayKeeps(c, app, Reset(b1, now), OtaNone(None));
      SayOnly(Reset(b1, now), OtaNone(None));
    } else {
      DecideKeeps(c, app, b1, cur, now, q);
    }
  }

  lemma SayOnly(b: State, m: Message)
    ensures Do(b, Say(m)) == b.(done := b.done + [Say(m)])
  {
  }

  lemma DecideKeeps(c: Config, app: string, b: State, cur: string, now: int, q: QueryAnswer)
    requires Inv(c, app, b) && !Floored(c, q)
    ensures var d := Decide(c, b, cur, now, q);
      Inv(c, app, d) && d.note == b.note && d.flow == b.flow && d.proto == b.proto
  {
    hide Inv, Newer, Pairs, Do;
    InvStaged(c, app, b);
    var level := AppAvailable(c, b, q);
    if q.manifest.None? || !Newer(c, q.manifest.value.version, cur) {
      var d := b.(appUpdate := level, manifest := None);
      Restage(c, app, b, d);
      SayKeeps(c, app, d, OtaNone(level));
      SayOnly(d, OtaNone(level));
    } else {
      var m := q.manifest.value;
      var d := b.(manifest := Some(m), appUpdate := level);
      Restage(c, app, b, d);
      Restage(c, app, b, Reset(d, now));
      SayKeeps(c, app, Reset(d, now), OtaNone(level));
      SayOnly(Reset(d, now), OtaNone(level));
      SayKeeps(c, app, d, OtaAvail(m.version, m.size, m.sha256, level));
      SayOnly(d, OtaAvail(m.version, m.size, m.sha256, level));
    }
  }

  lemma WriteImageKeeps(c: Config, app: string, b: State, now: int, f: FlashAnswer)
    requires Inv(c, app, b) && (b.manifest.Some? ==> InHand(b, b.manifest.value.version))
    ensures Inv(c, app, WriteImage(c, b, now, f))
  {
    hide Inv, InHand, Newer, FloorMet;
    InvStaged(c, app, b);
    var r := Reset(b, now);
    Restage(c, app, b, r);
    assert forall v :: InHand(b, v) ==> InHand(r, v) by { hide Credit; InHandSame(b, r); }
    if b.manifest.None? {
      SayKeeps(c, app, b, OtaError("nothing staged"));
    } else if !c.flashes {
      SayKeeps(c, app, b, OtaError("no flasher configured"));
    } else if f.firmware.None? {
      SayKeeps(c, app, r, OtaError("download failed"));
    } else if |f.firmware.value| != b.manifest.value.size {
      SayKeeps(c, app, r, OtaError("size mismatch"));
    } else if c.sha256(f.firmware.value) != c.plain(b.manifest.value.sha256) {
      SayKeeps(c, app, r, OtaError("sha256 mismatch"));
    } else {
      var m := b.manifest.value;
      SayKeeps(c, app, r, OtaBegin(m.version));
      var d := Do(r, Say(OtaBegin(m.version)));
      DoKeeps(c, app, d, Flash(m, f.firmware.value));
      var e := Do(d, Flash(m, f.firmware.value));
      Restage(c, app, e, WriteImage(c, b, now, f));
    }
  }

  lemma InHandSame(b: State, d: State)
    requires b.done == d.done
    ensures forall v :: InHand(b, v) ==> InHand(d, v)
  {
  }

  lemma FlashNowKeeps(c: Config, app: string, b: State, now: int, f: FlashAnswer)
    requires Inv(c, app, b) && (b.manifest.Some? ==> InHand(b, b.manifest.value.version))
    ensures Inv(c, app, FlashNow(c, b, now, f))
  {
    hide Inv, InHand, Newer, FloorMet, WriteImage;
    if b.manifest.Some? && b.appUpdate.Some? && c.selfUpdates {
      var v := b.manifest.value.version;
      InvStaged(c, app, b);
      var b0 := b.(appUpdate := None);
      Restage(c, app, b, b0);
      InHandSame(b, b0);
      var b1 := Remember(c, b0, Approve(v));
      if c.remembers { DoKeeps(c, app, b0, Approve(v)); }
      if f.updated {
        DoKeeps(c, app, b1, Replace(b.appUpdate.value));
        InvStaged(c, app, Do(b1, Replace(b.appUpdate.value)));
        Restage(c, app, Do(b1, Replace(b.appUpdate.value)), FlashNow(c, b, now, f));
      } else {
        if c.remembers {
          DoKeeps(c, app, b1, Spend);
          TakenBack(c, app, b0, v);
        }
        WriteImageKeeps(c, app, Remember(c, b1, Spend), now, f);
      }
    } else {
      WriteImageKeeps(c, app, b, now, f);
    }
  }

  /** A note written and taken back leaves the tap in hand. */
  lemma TakenBack(c: Config, app: string, b: State, v: string)
    requires Inv(c, app, b) && InHand(b, v)
    ensures InHand(Do(Do(b, Approve(v)), Spend), v)
  {
    hide Consented, Given, FlashesMatch, Rises, Staged;
    var done := b.done + [Approve(v)];
    DoDone(app, b.done, Approve(v));
    forall sel ensures Credit(done + [Spend], sel) >= Credit(b.done, sel) {
      CreditAfter(b.done, Approve(v), sel);
      CreditAfter(done, Spend, sel);
    }
  }

  lemma SpendHands(c: Config, app: string, b: State, v: string)
    requires Inv(c, app, b) && b.note.Some? && b.note.value.version == v
    ensures InHand(Do(b, Spend), v)
  {
    hide Consented, FlashesMatch, Rises, Staged, Given;
    forall sel | sel == None || sel == Some(v)
      ensures Credit(b.done + [Spend], sel) >= 1
    {
      CreditAfter(b.done, Spend, sel);
      ConsentedNow(b.done, sel);
    }
  }

  lemma ResumeKeeps(c: Config, app: string, b: State, now: int, q: QueryAnswer, f: FlashAnswer)
    requires Inv(c, app, b)
    ensures Inv(c, app, Resume(c, b, now, q, f))
  {
    hide Inv, InHand, Query, FlashNow, FloorMet, Newer;
    if c.remembers && Readable(b).Some? {
      var note := Readable(b).value;
      var cur := if b.fw == "" then "0.0.0" else b.fw;
      var b1 := Query(c, b, cur, now, q);
      QueryKeeps(c, app, b, cur, now, q);
      InvStaged(c, app, b);
      var spent := Do(b1, Spend);
      DoKeeps(c, app, b1, Spend);
      if b1.manifest.None? {
        if note.tries + 1 >= RESUME_TRIES {
          var why := OtaError("could not read the release feed");
          SayKeeps(c, app, spent, why);
          ResetKeeps(c, app, Do(spent, Say(why)), now);
        } else {
          DoKeeps(c, app, b1, Bump);
          ResetKeeps(c, app, Do(b1, Bump), now);
        }
      } else if b1.manifest.value.version != note.version {
        ResetKeeps(c, app, spent, now);
      } else {
        SpendHands(c, app, b1, note.version);
        SayKeeps(c, app, spent, OtaResume(note.version));
        FlashNowKeeps(c, app, Do(spent, Say(OtaResume(note.version))), now, f);
      }
    }
  }

  lemma ResetKeeps(c: Config, app: string, b: State, now: int)
    requires Inv(c, app, b)
    ensures Inv(c, app, Reset(b, now))
  {
    hide Inv;
    InvStaged(c, app, b);
    Restage(c, app, b, Reset(b, now));
  }

  lemma GreetKeeps(c: Config, app: string, b: State, a: Answers)
    requires Inv(c, app, b)
    ensures Inv(c, app, Greet(c, b, a))
  {
    hide Inv, Resume, Newer, FloorMet;
    SayKeeps(c, app, b, Welcome);
    var b1 := Do(b, Say(Welcome));
    if b1.report.Some? {
      var d := Do(b1, Say(OtaError(b1.report.value)));
      SayKeeps(c, app, b1, OtaError(b1.report.value));
      InvStaged(c, app, d);
      Restage(c, app, d, d.(report := None));
      ResumeKeeps(c, app, d.(report := None), a.now, a.q1, a.f1);
    } else {
      ResumeKeeps(c, app, b1, a.now, a.q1, a.f1);
    }
  }

  lemma OfferKeeps(c: Config, app: string, b: State, fw: string, a: Answers)
    requires Inv(c, app, b)
    ensures Inv(c, app, OfferIfNewer(c, b, fw, a))
  {
    hide Inv, Query;
    if OfferIfNewer(c, b, fw, a) != b {
      QueryKeeps(c, app, b, fw, a.now, a.q2);
    }
  }

  lemma TapHands(c: Config, app: string, b: State, v: string)
    requires Inv(c, app, b)
    ensures InHand(Do(b, Tapped(Some(v))), v)
  {
    hide Consented, FlashesMatch, Rises, Staged, Given;
    forall sel | sel == None || sel == Some(v)
      ensures Credit(b.done + [Tapped(Some(v))], sel) >= 1
    {
      CreditAfter(b.done, Tapped(Some(v)), sel);
      ConsentedNow(b.done, sel);
    }
  }

  lemma HandleKeeps(c: Config, app: string, b: State, v: Option<int>, kind: Kind, a: Answers)
    requires Inv(c, app, b)
    ensures Inv(c, app, Handle(c, b, v, kind, a))
  {
    hide Inv, InHand, FlashNow, Query, Greet, OfferIfNewer, FloorMet, Newer;
    match kind {
      case Ping => SayKeeps(c, app, b, Pong);
      case Asked(cur) => QueryKeeps(c, app, b, cur, a.now, a.q2);
      case Tap =>
        var staged := if b.manifest.Some? then Some(b.manifest.value.version) else None;
        DoKeeps(c, app, b, Tapped(staged));
        if staged.Some? { TapHands(c, app, b, staged.value); }
        FlashNowKeeps(c, app, Do(b, Tapped(staged)), a.now, a.f2);
      case Hello(fw) =>
        InvStaged(c, app, b);
        var b0 := b.(proto := v, fw := fw);
        Restage(c, app, b, b0);
        GreetKeeps(c, app, b0, a);
        OfferKeeps(c, app, Greet(c, b0, a), fw, a);
      case Other =>
    }
  }

  lemma {:induction false} NextKeeps(c: Config, app: string, b: State, e: Event)
    requires Inv(c, app, b)
    ensures Inv(c, app, Next(c, b, e))
    decreases e
  {
    hide Inv, Query, Greet, OfferIfNewer, Handle, Resume, FloorMet, Newer;
    InvStaged(c, app, b);
    FirstStays(c, app, b);
    match e {
      case Connect(report) => Restage(c, app, b, Fresh(b, report));
      case Heard(v, kind, a) =>
        if b.proto.None? && v.Some? {
          Restage(c, app, b, b.(proto := v));
          ResumeKeeps(c, app, b.(proto := v), a.now, a.q1, a.f1);
        }
        HandleKeeps(c, app, Learn(c, b, v, kind.Hello?, a), v, kind, a);
      case FoundRunning(fw, a) =>
        GreetKeeps(c, app, b, a);
        OfferKeeps(c, app, Greet(c, b, a), fw, a);
      case RetryTick(a) =>
        Restage(c, app, b, b.(failedAt := None));
        QueryKeeps(c, app, b.(failedAt := None), b.fw, a.now, a.q2);
      case Killed(during, kept) =>
        NextKeeps(c, app, b, during);
        KilledKeeps(c, app, b, Next(c, b, during), kept);
    }
  }

  lemma KilledKeeps(c: Config, app: string, b: State, d: State, kept: nat)
    requires Inv(c, app, d) && b.first == app
    ensures var done := if |b.done| <= kept <= |d.done| then d.done[..kept] else d.done;
      Inv(c, app, Fresh(b.(done := done, note := NoteOf(done), app := AppOf(b.first, done)), None))
  {
    hide Credit, NoteOf, AppOf, Newer, Matches, FloorMet;
    var n := if |b.done| <= kept <= |d.done| then kept else |d.done|;
    var done := d.done[..n];
    assert d.done[..|d.done|] == d.done;
    forall k | 0 <= k <= n
      ensures done[..k] == d.done[..k]
    {
    }
    assert Consented(done) && TriesBounded(done) && FlashesMatch(c, done) && Rises(c, app, done);
  }

  lemma FirstStays(c: Config, app: string, b: State)
    requires Inv(c, app, b)
    ensures b.first == app
  {
  }

  lemma {:induction false} RunKeeps(c: Config, app: string, b: State, events: seq<Event>)
    requires Inv(c, app, b)
    ensures Inv(c, app, Run(c, b, events))
    decreases |events|
  {
    hide Inv, Next;
    if events != [] {
      NextKeeps(c, app, b, events[0]);
      RunKeeps(c, app, Next(c, b, events[0]), events[1..]);
    }
  }

  /** Over every interleaving of messages, feed answers, self-updates, new links and
      restarts from a clean disk: the main safety property of the pair update. */
  lemma ConsentIsConserved(c: Config, app: string, events: seq<Event>)
    ensures var b := Run(c, Start(app), events);
      && b.note == NoteOf(b.done)
      && Consented(b.done)
      && FlashesMatch(c, b.done)
      && Rises(c, app, b.done)
      && TriesBounded(b.done)
  {
    assert Inv(c, app, Start(app));
    hide TriesBounded, Consented, FlashesMatch, Rises, NoteOf, Run;
    RunKeeps(c, app, Start(app), events);
  }

  /** The board is not ahead, the release can be installed over this protocol and is
      newer than the board, and this app is level with it, or can be brought level by
      the signed release, or can by design not be. */
  predicate Offers(c: Config, b: State, cur: string, q: QueryAnswer) {
    && !(b.proto.Some? && b.proto.value > c.proto)
    && q.manifest.Some? && Newer(c, q.manifest.value.version, cur)
    && (q.manifest.value.protoMin.None? || q.manifest.value.protoMin.value <= c.proto)
    && (Newer(c, q.manifest.value.version, b.app) && c.selfUpdates && c.platformKnown ==> Levels(c, b, q))
  }

  /** The signed release has a build of the app that is newer than this one. */
  predicate Levels(c: Config, b: State, q: QueryAnswer) {
    c.selfUpdates && q.signed.Some? && Newer(c, q.signed.value.version, b.app) && q.signed.value.artifact.Some?
  }

  /** Exactly such a release is offered and stays staged; every query is answered either
      way, with the app there is. */
  lemma OfferedIff(c: Config, b: State, cur: string, now: int, q: QueryAnswer)
    ensures var d := Query(c, b, cur, now, q);
      var app := if Levels(c, b, q) then Some(q.signed.value.version) else None;
      var offered := Offers(c, b, cur, q);
      && d.manifest == (if offered then q.manifest else None)
      && |d.done| == |b.done| + 1
      && (offered ==> d.appUpdate == app)
      && (offered ==> var m := q.manifest.value; d.done[|b.done|] == Say(OtaAvail(m.version, m.size, m.sha256, app)))
      && (!offered ==> d.done[|b.done|] == Say(OtaNone(if BeyondUs(c, b, q) then None else app)))
  {
    hide Newer;
  }

  /** One side speaks a protocol that the other does not. */
  predicate BeyondUs(c: Config, b: State, q: QueryAnswer) {
    || (b.proto.Some? && b.proto.value > c.proto)
    || (q.manifest.Some? && q.manifest.value.protoMin.Some? && q.manifest.value.protoMin.value > c.proto)
  }

  /** A query leaves when it was asked and which firmware the board was first said to
      run, and is to come back exactly if a newer release could not be offered, or none
      may be. */
  lemma QueryRemembers(c: Config, b: State, cur: string, now: int, q: QueryAnswer)
    ensures var d := Query(c, b, cur, now, q);
      var newer := q.manifest.Some? && Newer(c, q.manifest.value.version, cur);
      && d.lastQueryAt == Some(now) && d.fw == (if b.fw != "" then b.fw else cur)
      && d.failedAt == (if BeyondUs(c, b, q) || (newer && !Offers(c, b, cur, q)) then Some(now) else None)
      && (b.note, b.app, b.flow, b.proto, b.report) == (d.note, d.app, d.flow, d.proto, d.report)
  {
    hide Newer;
  }

  /** A version is newer when both have exactly three parts and at the first that
      differs it has the larger. */
  lemma NewerIs(c: Config, cand: string, cur: string)
    ensures Newer(c, cand, cur) <==>
      && c.parts(cand).Some? && c.parts(cur).Some? && |c.parts(cand).value| == 3 && |c.parts(cur).value| == 3
      && var a, b := c.parts(cand).value, c.parts(cur).value;
         a[0] > b[0] || (a[0] == b[0] && (a[1] > b[1] || (a[1] == b[1] && a[2] > b[2])))
  {
    if Proper(c, cand) && Proper(c, cur) {
      var a, b := c.parts(cand).value, c.parts(cur).value;
      assert a[1..][1..] == [a[2]] && b[1..][1..] == [b[2]] && a[1..][0] == a[1] && b[1..][0] == b[1];
      assert !Less([], []);
      assert Less(b[1..][1..], a[1..][1..]) <==> a[2] > b[2];
      assert Less(b[1..], a[1..]) <==> a[1] > b[1] || (a[1] == b[1] && a[2] > b[2]);
    }
  }

  // --- the chain of self-updates ends ---

  lemma {:induction false} LessIsTransitive(a: seq<int>, b: seq<int>, d: seq<int>)
    requires Less(a, b) && Less(b, d)
    ensures Less(a, d)
  {
    if a != [] && b[0] == a[0] && d[0] == a[0] {
      LessIsTransitive(a[1..], b[1..], d[1..]);
    }
  }

  lemma {:induction false} LessIsStrict(a: seq<int>)
    ensures !Less(a, a)
  {
    if a != [] {
      LessIsStrict(a[1..]);
    }
  }

  function Replaced(done: seq<Effect>): set<string> {
    if done == [] then {}
    else Replaced(done[..|done| - 1]) + if done[|done| - 1].Replace? then {done[|done| - 1].app} else {}
  }

  function Replacements(done: seq<Effect>): nat {
    if done == [] then 0
    else Replacements(done[..|done| - 1]) + if done[|done| - 1].Replace? then 1 else 0
  }

  predicate AtMost(c: Config, v: string, w: string) {
    v == w || Newer(c, w, v)
  }

  /** No version is ever installed over itself again, so that many versions came. */
  lemma {:induction false} RisesCounts(c: Config, app: string, done: seq<Effect>)
    requires Rises(c, app, done)
    ensures Replacements(done) == |Replaced(done)|
    ensures forall v :: v in Replaced(done) ==> AtMost(c, v, AppOf(app, done))
    decreases |done|
  {
    hide Newer;
    if done != [] {
      var n := |done| - 1;
      var before := done[..n];
      RisesBefore(c, app, done);
      RisesCounts(c, app, before);
      if done[n].Replace? {
        forall v | v in Replaced(before)
          ensures Newer(c, done[n].app, v)
        {
          NewerThanAll(c, v, AppOf(app, before), done[n].app);
        }
        NotNewerThanItself(c, done[n].app);
        assert done[n].app !in Replaced(before);
      }
    }
  }

  lemma NotNewerThanItself(c: Config, v: string)
    ensures !Newer(c, v, v)
  {
    if Proper(c, v) {
      LessIsStrict(c.parts(v).value);
    }
  }

  lemma NewerThanAll(c: Config, v: string, w: string, x: string)
    requires AtMost(c, v, w) && Newer(c, x, w)
    ensures Newer(c, x, v)
  {
    hide Less;
    if v != w {
      LessIsTransitive(c.parts(v).value, c.parts(w).value, c.parts(x).value);
    }
  }

  lemma RisesBefore(c: Config, app: string, done: seq<Effect>)
    requires Rises(c, app, done) && done != []
    ensures Rises(c, app, done[..|done| - 1])
    ensures done[|done| - 1].Replace? ==> Newer(c, done[|done| - 1].app, AppOf(app, done[..|done| - 1]))
  {
    hide Newer, AppOf;
    var before := done[..|done| - 1];
    forall i | 0 <= i < |before| && before[i].Replace?
      ensures Newer(c, before[i].app, AppOf(app, before[..i]))
    {
      assert before[..i] == done[..i];
    }
  }

  /** The versions the signed feed named during a run, answers to cut-short events included. */
  function Named(events: seq<Event>): set<string>
    decreases |events|
  {
    if events == [] then {} else NamedBy(events[0]) + Named(events[1..])
  }

  function NamedBy(e: Event): set<string> {
    match e
    case Heard(_, _, a) => NamedIn(a.q1) + NamedIn(a.q2)
    case FoundRunning(_, a) => NamedIn(a.q1) + NamedIn(a.q2)
    case RetryTick(a) => NamedIn(a.q2)
    case Connect(_) => {}
    case Killed(during, _) => NamedBy(during)
  }

  function NamedIn(q: QueryAnswer): set<string> {
    if q.signed.Some? then {q.signed.value.version} else {}
  }

  // --- an approval is always resolved ---

  /** Picking the approval up now would find one. */
  predicate PicksUp(c: Config, b: State) {
    c.remembers && Readable(b).Some?
  }

  /** How often an event picks an approval up: once the board's number is known, at
      each greeting, and with the message that first gave the number. */
  function PickUpsIn(c: Config, b: State, e: Event): nat {
    match e
    case Heard(v, kind, _) =>
      if b.flow.On? && v.Some? && (b.proto.None? || kind.Hello?) && PicksUp(c, b) then 1 else 0
    case FoundRunning(_, _) => if b.flow.On? && b.proto.Some? && PicksUp(c, b) then 1 else 0
    case RetryTick(_) => 0
    case Connect(_) => 0
    case Killed(during, _) => PickUpsIn(c, b, during)
  }

  function PickUps(c: Config, b: State, events: seq<Event>): nat
    decreases |events|
  {
    if events == [] then 0
    else PickUpsIn(c, b, events[0]) + PickUps(c, Next(c, b, events[0]), events[1..])
  }

  function Deaths(events: seq<Event>): nat
    decreases |events|
  {
    if events == [] then 0 else (if events[0].Killed? then 1 else 0) + Deaths(events[1..])
  }

  function TriesLeft(note: Option<Note>): int {
    if note.Some? then RESUME_TRIES - note.value.tries else 0
  }

  /** Tries left, less those every self-update so far came with. */
  function Spare(b: State): int {
    TriesLeft(b.note) - RESUME_TRIES * Replacements(b.done)
  }

  /** Every program installed, and the one ready to be, was named. */
  ghost predicate Within(b: State, names: set<string>) {
    && Replaced(b.done) <= names
    && (b.appUpdate.Some? ==> b.appUpdate.value in names)
    && (b.note.Some? ==> b.note.value.tries < RESUME_TRIES)
  }

  /** `d` comes after `b`, with so many tries used up on the way. */
  ghost predicate Moves(b: State, d: State, names: set<string>, used: int) {
    b.done <= d.done && Within(d, names) && Spare(d) + used <= Spare(b)
  }

  lemma MovesOn(b: State, d: State, e: State, names: set<string>, used: int, more: int)
    requires Moves(b, d, names, used) && Moves(d, e, names, more)
    ensures Moves(b, e, names, used + more)
  {
    hide Within, Spare;
  }

  lemma DoReplaced(b: State, e: Effect)
    ensures Replaced(Do(b, e).done) == Replaced(b.done) + if e.Replace? then {e.app} else {}
    ensures Replacements(Do(b, e).done) == Replacements(b.done) + if e.Replace? then 1 else 0
  {
    assert (b.done + [e])[..|b.done|] == b.done;
  }

  lemma SayMoves(b: State, m: Message, names: set<string>)
    requires Within(b, names)
    ensures Moves(b, Do(b, Say(m)), names, 0)
  {
    hide Replaced, Replacements;
    DoReplaced(b, Say(m));
  }

  lemma QuerySays(c: Config, b: State, cur: string, now: int, q: QueryAnswer)
    ensures var d := Query(c, b, cur, now, q);
      && |d.done| == |b.done| + 1 && d.done == b.done + [d.done[|b.done|]] && d.done[|b.done|].Say?
      && d.note == b.note && d.flow == b.flow
      && (d.appUpdate.Some? ==> d.appUpdate == b.appUpdate || d.appUpdate.value in NamedIn(q))
  {
    hide Newer, Pairs;
  }

  lemma QueryMoves(c: Config, b: State, cur: string, now: int, q: QueryAnswer, names: set<string>)
    requires Within(b, names) && NamedIn(q) <= names
    ensures var d := Query(c, b, cur, now, q);
      Moves(b, d, names, 0) && d.note == b.note && d.flow == b.flow
  {
    hide Replaced, Replacements, Query;
    QuerySays(c, b, cur, now, q);
    DoReplaced(b, Query(c, b, cur, now, q).done[|b.done|]);
  }

  lemma WriteImageMoves(c: Config, b: State, now: int, f: FlashAnswer, names: set<string>)
    requires Within(b, names)
    ensures Moves(b, WriteImage(c, b, now, f), names, 0)
  {
    hide Replaced, Replacements;
    var r := Reset(b, now);
    DoReplaced(b, Say(OtaError("nothing staged")));
    DoReplaced(b, Say(OtaError("no flasher configured")));
    DoReplaced(r, Say(OtaError("download failed")));
    DoReplaced(r, Say(OtaError("size mismatch")));
    DoReplaced(r, Say(OtaError("sha256 mismatch")));
    if b.manifest.Some? && f.firmware.Some? {
      var m := b.manifest.value;
      DoReplaced(r, Say(OtaBegin(m.version)));
      DoReplaced(Do(r, Say(OtaBegin(m.version))), Flash(m, f.firmware.value));
    }
  }

  /** A note outlives the handler of its tap only through a self-update. */
  lemma FlashNowMoves(c: Config, b: State, now: int, f: FlashAnswer, names: set<string>)
    requires Within(b, names)
    ensures Moves(b, FlashNow(c, b, now, f), names, 0)
  {
    hide Replaced, Replacements, WriteImage;
    if b.manifest.Some? && b.appUpdate.Some? && c.selfUpdates {
      var v := b.manifest.value.version;
      var b0 := b.(appUpdate := None);
      DoReplaced(b0, Approve(v));
      var b1 := Remember(c, b0, Approve(v));
      if f.updated {
        DoReplaced(b1, Replace(b.appUpdate.value));
      } else {
        DoReplaced(b1, Spend);
        var b2 := Remember(c, b1, Spend);
        WriteImageMoves(c, b2, now, f, names);
        MovesOn(b, b2, WriteImage(c, b2, now, f), names, 0, 0);
      }
    } else {
      WriteImageMoves(c, b, now, f, names);
    }
  }

  lemma NoteMoves(b: State, e: Effect, names: set<string>)
    requires Within(b, names) && b.note.Some? && b.note.value.version != ""
    requires e.Spend? || (e.Bump? && b.note.value.tries + 1 < RESUME_TRIES)
    ensures Moves(b, Do(b, e), names, 1)
  {
    hide Replaced, Replacements;
    DoReplaced(b, e);
  }

  lemma ResumeMoves(c: Config, b: State, now: int, q: QueryAnswer, f: FlashAnswer, names: set<string>)
    requires Within(b, names) && NamedIn(q) <= names
    ensures Moves(b, Resume(c, b, now, q, f), names, if PicksUp(c, b) then 1 else 0)
  {
    hide Replaced, Replacements, Query, FlashNow;
    if PicksUp(c, b) {
      var note := Readable(b).value;
      var cur := if b.fw == "" then "0.0.0" else b.fw;
      var b1 := Query(c, b, cur, now, q);
      QueryMoves(c, b, cur, now, q, names);
      var spent := Do(b1, Spend);
      NoteMoves(b1, Spend, names);
      MovesOn(b, b1, spent, names, 0, 1);
      if b1.manifest.None? {
        if note.tries + 1 < RESUME_TRIES {
          NoteMoves(b1, Bump, names);
          MovesOn(b, b1, Do(b1, Bump), names, 0, 1);
        } else {
          var why := OtaError("could not read the release feed");
          SayMoves(spent, why, names);
          MovesOn(b, spent, Do(spent, Say(why)), names, 1, 0);
        }
      } else if b1.manifest.value.version == note.version {
        var b2 := Do(spent, Say(OtaResume(note.version)));
        SayMoves(spent, OtaResume(note.version), names);
        MovesOn(b, spent, b2, names, 1, 0);
        FlashNowMoves(c, b2, now, f, names);
        MovesOn(b, b2, FlashNow(c, b2, now, f), names, 1, 0);
      }
    }
  }

  lemma GreetMoves(c: Config, b: State, a: Answers, names: set<string>)
    requires Within(b, names) && NamedIn(a.q1) <= names
    ensures Moves(b, Greet(c, b, a), names, if b.proto.Some? && PicksUp(c, b) then 1 else 0)
  {
    hide Replaced, Replacements, Resume;
    var b1 := Do(b, Say(Welcome));
    SayMoves(b, Welcome, names);
    var b2 := if b1.report.Some? then Do(b1, Say(OtaError(b1.report.value))).(report := None) else b1;
    if b1.report.Some? {
      SayMoves(b1, OtaError(b1.report.value), names);
      MovesOn(b, b1, b2, names, 0, 0);
    }
    if b2.proto.Some? {
      ResumeMoves(c, b2, a.now, a.q1, a.f1, names);
      MovesOn(b, b2, Resume(c, b2, a.now, a.q1, a.f1), names, 0, if PicksUp(c, b) then 1 else 0);
    }
  }

  lemma OfferMoves(c: Config, b: State, fw: string, a: Answers, names: set<string>)
    requires Within(b, names) && NamedIn(a.q2) <= names
    ensures Moves(b, OfferIfNewer(c, b, fw, a), names, 0)
  {
    hide Replaced, Replacements, Query;
    QueryMoves(c, b, fw, a.now, a.q2, names);
  }

  lemma HandleMoves(c: Config, b: State, v: Option<int>, kind: Kind, a: Answers, names: set<string>)
    requires Within(b, names) && NamedIn(a.q1) <= names && NamedIn(a.q2) <= names
    ensures Moves(b, Handle(c, b, v, kind, a), names, if kind.Hello? && v.Some? && PicksUp(c, b) then 1 else 0)
  {
    hide Replaced, Replacements, Query, FlashNow, Greet, OfferIfNewer;
    match kind {
      case Ping => SayMoves(b, Pong, names);
      case Asked(cur) => QueryMoves(c, b, cur, a.now, a.q2, names);
      case Tap =>
        var tapped := Tapped(if b.manifest.Some? then Some(b.manifest.value.version) else None);
        DoReplaced(b, tapped);
        FlashNowMoves(c, Do(b, tapped), a.now, a.f2, names);
        MovesOn(b, Do(b, tapped), FlashNow(c, Do(b, tapped), a.now, a.f2), names, 0, 0);
      case Hello(fw) =>
        var g := Greet(c, b.(proto := v, fw := fw), a);
        GreetMoves(c, b.(proto := v, fw := fw), a, names);
        var used := if v.Some? && PicksUp(c, b) then 1 else 0;
        OfferMoves(c, g, fw, a, names);
        MovesOn(b, g, OfferIfNewer(c, g, fw, a), names, used, 0);
      case Other =>
    }
  }

  lemma HeardMoves(c: Config, b: State, v: Option<int>, kind: Kind, a: Answers, names: set<string>)
    requires Within(b, names) && NamedIn(a.q1) <= names && NamedIn(a.q2) <= names && b.flow.On?
    ensures Moves(b, OnMessage(c, b, v, kind, a), names, PickUpsIn(c, b, Heard(v, kind, a)))
  {
    hide Replaced, Replacements, Resume, Handle;
    var l := Learn(c, b, v, kind.Hello?, a);
    var used := if b.proto.None? && v.Some? && !kind.Hello? && PicksUp(c, b) then 1 else 0;
    ResumeMoves(c, b.(proto := v), a.now, a.q1, a.f1, names);
    assert Moves(b, l, names, used);
    if l.flow.On? {
      HandleMoves(c, l, v, kind, a, names);
      MovesOn(b, l, Handle(c, l, v, kind, a), names, used,
              if kind.Hello? && v.Some? && PicksUp(c, l) then 1 else 0);
    }
  }

  /** A death can lose the try it used, or leave an approval noted anew. */
  lemma KilledMoves(c: Config, app: string, b: State, d: State, kept: nat, names: set<string>, used: int)
    requires Inv(c, app, b) && Inv(c, app, d) && Within(b, names) && b.done <= d.done && Replaced(d.done) <= names
    requires used <= TriesLeft(b.note)
    ensures var done := if |b.done| <= kept <= |d.done| then d.done[..kept] else d.done;
      Moves(b, Fresh(b.(done := done, note := NoteOf(done), app := AppOf(b.first, done)), None), names, used - RESUME_TRIES)
  {
    hide Inv, NoteOf, AppOf;
    var n := if |b.done| <= kept <= |d.done| then kept else |d.done|;
    var done := d.done[..n];
    assert d.done[..|d.done|] == d.done;
    KilledKeeps(c, app, b, d, kept) by { FirstStays(c, app, b); }
    InvStaged(c, app, Fresh(b.(done := done, note := NoteOf(done), app := AppOf(b.first, done)), None));
    assert done[..|b.done|] == b.done;
    ReplacedFront(d.done, n);
    ReplacedFront(done, |b.done|);
  }

  lemma {:induction false} ReplacedFront(done: seq<Effect>, n: nat)
    requires n <= |done|
    ensures Replaced(done[..n]) <= Replaced(done) && Replacements(done[..n]) <= Replacements(done)
    decreases |done|
  {
    if n == |done| {
      assert done[..n] == done;
    } else {
      ReplacedFront(done[..|done| - 1], n);
      assert done[..|done| - 1][..n] == done[..n];
    }
  }

  lemma PicksUpOnce(c: Config, b: State, e: Event)
    requires b.note.Some? ==> b.note.value.tries < RESUME_TRIES
    ensures PickUpsIn(c, b, e) <= 1 && PickUpsIn(c, b, e) <= TriesLeft(b.note)
    decreases e
  {
    if e.Killed? {
      PicksUpOnce(c, b, e.during);
    }
  }

  lemma {:induction false} NextMoves(c: Config, app: string, b: State, e: Event, names: set<string>)
    requires Inv(c, app, b) && Within(b, names) && NamedBy(e) <= names
    ensures Moves(b, Next(c, b, e), names, PickUpsIn(c, b, e) - if e.Killed? then RESUME_TRIES else 0)
    decreases e
  {
    hide Inv, Replaced, Replacements, Query, Greet, OfferIfNewer, OnMessage;
    match e {
      case Connect(report) =>
      case Heard(v, kind, a) =>
        if b.flow.On? { HeardMoves(c, b, v, kind, a, names); }
      case FoundRunning(fw, a) =>
        var g := Greet(c, b, a);
        GreetMoves(c, b, a, names);
        OfferMoves(c, g, fw, a, names);
        MovesOn(b, g, OfferIfNewer(c, g, fw, a), names, if b.proto.Some? && PicksUp(c, b) then 1 else 0, 0);
      case RetryTick(a) =>
        QueryMoves(c, b.(failedAt := None), b.fw, a.now, a.q2, names);
      case Killed(during, kept) =>
        NextMoves(c, app, b, during, names);
        NextKeeps(c, app, b, during);
        PicksUpOnce(c, b, during);
        KilledMoves(c, app, b, Next(c, b, during), kept, names, PickUpsIn(c, b, during));
    }
  }

  lemma {:induction false} RunMoves(c: Config, app: string, b: State, events: seq<Event>, names: set<string>)
    requires Inv(c, app, b) && Within(b, names) && Named(events) <= names
    ensures Moves(b, Run(c, b, events), names, PickUps(c, b, events) - RESUME_TRIES * Deaths(events))
    decreases |events|
  {
    hide Inv, Within, Spare, Next, PickUpsIn, NamedBy;
    if events != [] {
      var d := Next(c, b, events[0]);
      NextMoves(c, app, b, events[0], names);
      NextKeeps(c, app, b, events[0]);
      RunMoves(c, app, d, events[1..], names);
      MovesOn(b, d, Run(c, d, events[1..]), names,
              PickUpsIn(c, b, events[0]) - if events[0].Killed? then RESUME_TRIES else 0,
              PickUps(c, d, events[1..]) - RESUME_TRIES * Deaths(events[1..]));
    }
  }

  /** Over every run, only versions the signed feed named are ever installed as the
      app, each at most once: the chain of self-updates is no longer than the feed. */
  lemma SelfUpdatesEnd(c: Config, app: string, events: seq<Event>)
    ensures var b := Run(c, Start(app), events);
      && Replaced(b.done) <= Named(events)
      && Replacements(b.done) == |Replaced(b.done)| <= |Named(events)|
  {
    hide Replacements, Run, PickUps, Named;
    assert Within(Start(app), Named(events));
    assert Inv(c, app, Start(app));
    RunMoves(c, app, Start(app), events, Named(events));
    ConsentIsConserved(c, app, events);
    RisesCounts(c, app, Run(c, Start(app), events).done);
    Smaller(Replaced(Run(c, Start(app), events).done), Named(events));
  }

  /** An approval is never retried for ever: from any moment on it is picked up at most
      as often as it has tries left, and as often again after each self-update and
      each death in the middle of an event. */
  lemma PickUpsBounded(c: Config, app: string, b: State, events: seq<Event>)
    requires Inv(c, app, b)
    ensures var d := Run(c, b, events);
      && PickUps(c, b, events) + TriesLeft(d.note) <=
         TriesLeft(b.note) + RESUME_TRIES * (Replacements(d.done) - Replacements(b.done) + Deaths(events))
      && (TriesLeft(d.note) == 0 <==> d.note == None)
  {
    hide Inv, Run, PickUps, Named, Replacements, Replaced;
    var names := Named(events) + Replaced(b.done) + if b.appUpdate.Some? then {b.appUpdate.value} else {};
    InvStaged(c, app, b);
    RunMoves(c, app, b, events, names);
    RunKeeps(c, app, b, events);
    InvStaged(c, app, Run(c, b, events));
  }

  /** Over every run from a clean disk, the pick-ups there were and those the note still
      allows come to no more than three for each version named and each such death. */
  lemma ApprovalIsResolved(c: Config, app: string, events: seq<Event>)
    ensures PickUps(c, Start(app), events) + TriesLeft(Run(c, Start(app), events).note) <=
            RESUME_TRIES * (|Named(events)| + Deaths(events))
  {
    hide Inv, Run, PickUps, Named, Replacements, Replaced;
    assert Inv(c, app, Start(app)) && Replacements(Start(app).done) == 0 by { StartKeeps(c, app); }
    PickUpsBounded(c, app, Start(app), events);
    SelfUpdatesEnd(c, app, events);
  }

  lemma StartKeeps(c: Config, app: string)
    ensures Inv(c, app, Start(app)) && Replacements(Start(app).done) == 0
  {
  }

  lemma QueryApps(c: Config, b: State, cur: string, now: int, q: QueryAnswer)
    ensures var d := Query(c, b, cur, now, q);
      && d.note == b.note && d.app == b.app && d.flow == b.flow
      && (d.manifest.Some? && d.appUpdate.Some? ==>
           q.signed.Some? && d.appUpdate.value == q.signed.value.version && Newer(c, d.appUpdate.value, b.app))
  {
    hide Newer;
  }

  /** Between a tap and a pick-up the note waits: nothing else touches it. */
  lemma NoteWaits(c: Config, b: State, e: Event)
    requires PickUpsIn(c, b, e) == 0 && !(e.Heard? && e.kind.Tap?) && !e.Killed?
    ensures Next(c, b, e).note == b.note
  {
    hide Query, FlashNow;
    match e {
      case Connect(_) =>
      case Heard(v, kind, a) =>
        match kind {
          case Asked(cur) => QueryApps(c, Learn(c, b, v, false, a), cur, a.now, a.q2);
          case Hello(fw) => QueryApps(c, Greet(c, b.(proto := v, fw := fw), a), fw, a.now, a.q2);
          case _ =>
        }
      case FoundRunning(fw, a) => QueryApps(c, Greet(c, b, a), fw, a.now, a.q2);
      case RetryTick(a) => QueryApps(c, b.(failedAt := None), b.fw, a.now, a.q2);
    }
  }

  /** What becomes of an approval that is picked up, from the answers alone. While
      nothing can be offered it stays, one try older, until the third; it is dropped
      when the tries are out or another version is served; else it is installed, behind
      a self-update that takes it along. */
  lemma ResumeOutcome(c: Config, b: State, now: int, q: QueryAnswer, f: FlashAnswer)
    requires c.remembers && b.note.Some? && b.note.value.version != "" && b.note.value.tries < 3
    ensures var d := Resume(c, b, now, q, f); var note := b.note.value;
      var offered := Offers(c, b, if b.fw == "" then "0.0.0" else b.fw, q);
      && b.done < d.done
      && (!offered && note.tries + 1 < 3 ==>
           d.note == Some(Note(note.version, note.tries + 1)) && d.app == b.app && d.flow == b.flow
           && Installs(d.done) == Installs(b.done))
      && (!offered && note.tries + 1 >= 3 ==>
           d.note == None && d.app == b.app && d.flow == b.flow && Installs(d.done) == Installs(b.done)
           && d.done[|d.done| - 1] == Say(OtaError("could not read the release feed")))
      && (offered && q.manifest.value.version != note.version ==>
           d.note == None && d.app == b.app && d.flow == b.flow && Installs(d.done) == Installs(b.done))
      && (offered && q.manifest.value.version == note.version && Levels(c, b, q) && f.updated ==>
           d.note == Some(Note(note.version, 0)) && d.flow.Restarted? && d.app == q.signed.value.version
           && Installs(d.done) == Installs(b.done))
      && (offered && q.manifest.value.version == note.version && !(Levels(c, b, q) && f.updated) ==>
           d.note == None && d.app == b.app
           && var good := c.flashes && f.firmware.Some? && Matches(c, q.manifest.value, f.firmware.value);
              && Installs(d.done) == Installs(b.done) + (if good then 1 else 0)
              && (good ==> d.done[|d.done| - 1] == Flash(q.manifest.value, f.firmware.value))
              && (!good ==> d.done[|d.done| - 1].Say? && d.done[|d.done| - 1].message.OtaError?))
  {
    hide Newer, Query, Resume, Installs, Matches, FloorMet, Offers, Levels;
    var cur := if b.fw == "" then "0.0.0" else b.fw;
    OfferedIff(c, b, cur, now, q);
    OfferHas(c, b, cur, q);
    QueryGrows(c, b, cur, now, q);
    if Query(c, b, cur, now, q).manifest.None? {
      ResumeUnoffered(c, b, now, q, f);
    } else {
      ResumeOffered(c, b, now, q, f);
    }
  }

  /** One resume: the note is gone, or has one try fewer, or a later program has it. */
  lemma ResumeResolves(c: Config, b: State, now: int, q: QueryAnswer, f: FlashAnswer)
    requires c.remembers && Readable(b).Some? && b.note.value.tries < RESUME_TRIES
    ensures var d := Resume(c, b, now, q, f); var note := b.note.value;
      || (d.note == None && d.app == b.app)
      || (d.note == Some(note.(tries := note.tries + 1)) && note.tries + 1 < RESUME_TRIES && d.app == b.app)
      || (d.note == Some(Note(note.version, 0)) && d.flow.Restarted?
          && Newer(c, d.app, b.app) && q.signed.Some? && d.app == q.signed.value.version)
  {
    hide Newer, Resume, Installs, Matches, FloorMet;
    ResumeOutcome(c, b, now, q, f);
  }

  lemma ResumeUnoffered(c: Config, b: State, now: int, q: QueryAnswer, f: FlashAnswer)
    requires c.remembers && Readable(b).Some?
    requires Query(c, b, if b.fw == "" then "0.0.0" else b.fw, now, q).manifest.None?
    ensures var d := Resume(c, b, now, q, f); var note := b.note.value;
      && b.done < d.done && d.app == b.app && d.flow == b.flow && Installs(d.done) == Installs(b.done)
      && d.note == (if note.tries + 1 < 3 then Some(Note(note.version, note.tries + 1)) else None)
      && (d.note == None ==> d.done[|d.done| - 1] == Say(OtaError("could not read the release feed")))
  {
    hide Query, FlashNow, Installs;
    var cur := if b.fw == "" then "0.0.0" else b.fw;
    var b1 := Query(c, b, cur, now, q);
    QueryApps(c, b, cur, now, q);
    QueryGrows(c, b, cur, now, q);
    QueryAhead(c, b, cur, now, q);
    InstallsDo(b1, Spend);
    InstallsDo(b1, Bump);
    InstallsDo(Do(b1, Spend), Say(OtaError("could not read the release feed")));
  }

  lemma ResumeOffered(c: Config, b: State, now: int, q: QueryAnswer, f: FlashAnswer)
    requires c.remembers && Readable(b).Some?
    requires Query(c, b, if b.fw == "" then "0.0.0" else b.fw, now, q).manifest.Some?
    ensures var d := Resume(c, b, now, q, f); var note := b.note.value;
      var b1 := Query(c, b, if b.fw == "" then "0.0.0" else b.fw, now, q);
      var m := b1.manifest.value;
      var moved := b1.appUpdate.Some? && c.selfUpdates && f.updated;
      var good := c.flashes && f.firmware.Some? && Matches(c, m, f.firmware.value);
      && b.done < d.done
      && (m.version != note.version ==>
           d.note == None && d.app == b.app && d.flow == b.flow && Installs(d.done) == Installs(b.done))
      && (m.version == note.version && moved ==>
           d.note == Some(Note(note.version, 0)) && d.flow.Restarted? && d.app == b1.appUpdate.value
           && Installs(d.done) == Installs(b.done))
      && (m.version == note.version && !moved ==>
           && d.note == None && d.app == b.app && Installs(d.done) == Installs(b.done) + (if good then 1 else 0)
           && (good ==> d.done[|d.done| - 1] == Flash(m, f.firmware.value))
           && (!good ==> d.done[|d.done| - 1].Say? && d.done[|d.done| - 1].message.OtaError?))
  {
    hide Query, FlashNow, Installs, Matches;
    var note := b.note.value;
    var cur := if b.fw == "" then "0.0.0" else b.fw;
    var b1 := Query(c, b, cur, now, q);
    QueryApps(c, b, cur, now, q);
    QueryGrows(c, b, cur, now, q);
    QueryAhead(c, b, cur, now, q);
    InstallsDo(b1, Spend);
    if b1.manifest.value.version == note.version {
      var b2 := Do(Do(b1, Spend), Say(OtaResume(note.version)));
      InstallsDo(Do(b1, Spend), Say(OtaResume(note.version)));
      FlashNowOutcome(c, b2, now, f);
    }
  }

  lemma OfferHas(c: Config, b: State, cur: string, q: QueryAnswer)
    ensures Offers(c, b, cur, q) ==> q.manifest.Some?
    ensures Levels(c, b, q) ==> c.selfUpdates && q.signed.Some?
  {
  }

  lemma QueryGrows(c: Config, b: State, cur: string, now: int, q: QueryAnswer)
    ensures b.done < Query(c, b, cur, now, q).done && Query(c, b, cur, now, q).lastQueryAt == Some(now)
  {
    hide Newer, Pairs;
  }

  lemma FlashNowOutcome(c: Config, b: State, now: int, f: FlashAnswer)
    requires b.manifest.Some? && c.remembers && b.note == None
    ensures var d := FlashNow(c, b, now, f); var m := b.manifest.value;
      var level := b.appUpdate.Some? && c.selfUpdates;
      var good := c.flashes && f.firmware.Some? && Matches(c, m, f.firmware.value);
      && b.done < d.done && d.lastQueryAt == b.lastQueryAt
      && Installs(d.done) == Installs(b.done) + (if good && !(level && f.updated) then 1 else 0)
      && (level && f.updated ==> d.note == Some(Note(m.version, 0)) && d.flow.Restarted? && d.app == b.appUpdate.value)
      && (!(level && f.updated) ==>
           && d.note == None && d.app == b.app
           && (good ==> d.done[|d.done| - 1] == Flash(m, f.firmware.value))
           && (!good ==> d.done[|d.done| - 1].Say? && d.done[|d.done| - 1].message.OtaError?))
  {
    hide WriteImage, Installs, Matches;
    FlashNowInstalls(c, b, now, f);
    var v := b.manifest.value.version;
    var b2 := if b.appUpdate.Some? && c.selfUpdates then Do(Do(b.(appUpdate := None), Approve(v)), Spend) else b;
    WriteImageOutcome(c, b2, now, f);
  }

  lemma WriteImageOutcome(c: Config, b: State, now: int, f: FlashAnswer)
    requires b.manifest.Some?
    ensures var d := WriteImage(c, b, now, f); var m := b.manifest.value;
      var good := c.flashes && f.firmware.Some? && Matches(c, m, f.firmware.value);
      && b.done < d.done && d.note == b.note && d.app == b.app && d.lastQueryAt == b.lastQueryAt && d.fw == b.fw
      && (d.manifest, d.failedAt) == (if c.flashes then (None, Some(now)) else (b.manifest, b.failedAt))
      && d.flow == (if !good then b.flow else if f.comesBack then On else Reflashed)
      && (good ==> d.done[|d.done| - 1] == Flash(m, f.firmware.value))
      && (!good ==> d.done[|d.done| - 1].Say? && d.done[|d.done| - 1].message.OtaError?)
  {
  }

  /** A failed update comes back by itself two minutes later, and not before. */
  lemma FailureComesBack(c: Config, b: State, now: int, f: FlashAnswer, a: Answers)
    requires b.manifest.Some? && c.flashes && b.fw != "" && b.flow.On?
    ensures var d := FlashNow(c, b, now, f);
      d.flow.On? ==>
        && d.manifest == None
        && (a.now - now < 120 ==> Next(c, d, RetryTick(a)) == d)
        && (a.now - now >= 120 ==>
             var r := Next(c, d, RetryTick(a)); r.lastQueryAt == Some(a.now) && |r.done| == |d.done| + 1)
  {
    hide WriteImage, Query;
    var d := FlashNow(c, b, now, f);
    WriteImageOutcome(c, b, now, f);
    if b.appUpdate.Some? && c.selfUpdates {
      var b1 := Remember(c, b.(appUpdate := None), Approve(b.manifest.value.version));
      WriteImageOutcome(c, Remember(c, b1, Spend), now, f);
    }
    AsksIff(c, d, d.fw, a);
  }

  /** The process goes on, or the last it did was an install or a self-update. */
  predicate Ends(d: State) {
    d.flow.On? || (d.done != [] && (d.done[|d.done| - 1].Flash? || d.done[|d.done| - 1].Replace?))
  }

  /** Nothing is asked or said behind an install or a self-update that takes the board or
      the program away. */
  lemma NothingBehindAnEnd(c: Config, b: State, e: Event)
    requires Ends(b)
    ensures Ends(Next(c, b, e)) && (!b.flow.On? && !e.Connect? && !e.Killed? ==> Next(c, b, e) == b)
  {
    hide Resume, Handle, Greet, OfferIfNewer, Query, FlashNow;
    if b.flow.On? {
      match e {
        case Heard(v, kind, a) =>
          if v.Some? { ResumeEnds(c, b.(proto := v), a.now, a.q1, a.f1); }
          var l := Learn(c, b, v, kind.Hello?, a);
          if l.flow.On? { HandleEnds(c, l, v, kind, a); }
        case FoundRunning(fw, a) =>
          GreetEnds(c, b, a);
          OfferLeaves(c, Greet(c, b, a), fw, a);
        case RetryTick(a) => QueryApps(c, b.(failedAt := None), b.fw, a.now, a.q2);
        case _ =>
      }
    }
  }

  lemma HandleEnds(c: Config, b: State, v: Option<int>, kind: Kind, a: Answers)
    requires b.flow.On?
    ensures Ends(Handle(c, b, v, kind, a))
  {
    hide Greet, OfferIfNewer, Query, FlashNow;
    match kind {
      case Tap => FlashNowEnds(c, Do(b, Tapped(if b.manifest.Some? then Some(b.manifest.value.version) else None)), a.now, a.f2);
      case Hello(fw) =>
        GreetEnds(c, b.(proto := v, fw := fw), a);
        OfferLeaves(c, Greet(c, b.(proto := v, fw := fw), a), fw, a);
      case Asked(cur) => QueryApps(c, b, cur, a.now, a.q2);
      case _ =>
    }
  }

  lemma GreetEnds(c: Config, b: State, a: Answers)
    requires b.flow.On?
    ensures Ends(Greet(c, b, a))
  {
    hide Resume;
    var b0 := Greeted(c, b);
    ResumeEnds(c, b0, a.now, a.q1, a.f1);
  }

  lemma FlashNowEnds(c: Config, b: State, now: int, f: FlashAnswer)
    requires b.flow.On?
    ensures Ends(FlashNow(c, b, now, f))
  {
    hide Matches;
  }

  lemma ResumeEnds(c: Config, b: State, now: int, q: QueryAnswer, f: FlashAnswer)
    requires b.flow.On?
    ensures Ends(Resume(c, b, now, q, f))
  {
    hide Query, FlashNow;
    if c.remembers && Readable(b).Some? {
      var cur := if b.fw == "" then "0.0.0" else b.fw;
      QueryApps(c, b, cur, now, q);
      var b1 := Query(c, b, cur, now, q);
      FlashNowEnds(c, Do(Do(b1, Spend), Say(OtaResume(Readable(b).value.version))), now, f);
    }
  }

  /** Anything but a tap or a death, while the feed does not answer a pick-up. */
  predicate Unanswered(e: Event) {
    match e
    case Connect(_) => true
    case Heard(_, kind, a) => !kind.Tap? && a.q1.manifest.None?
    case FoundRunning(_, a) => a.q1.manifest.None?
    case RetryTick(_) => true
    case Killed(_, _) => false
  }

  /** An approval outlives a feed that does not answer: each pick-up counts one try, and
      nothing else counts any. */
  lemma {:induction false} SilenceCounts(c: Config, b: State, events: seq<Event>)
    requires c.remembers && b.flow.On? && b.note.Some? && b.note.value.version != ""
    requires forall i :: 0 <= i < |events| ==> Unanswered(events[i])
    requires b.note.value.tries + PickUps(c, b, events) < 3
    ensures var d := Run(c, b, events);
      && d.flow.On? && d.note == Some(Note(b.note.value.version, b.note.value.tries + PickUps(c, b, events)))
      && d.app == b.app && Installs(d.done) == Installs(b.done)
    decreases |events|
  {
    hide Next, Installs, PickUpsIn, Unanswered;
    if events != [] {
      SilentStep(c, b, events[0]);
      SilenceCounts(c, Next(c, b, events[0]), events[1..]);
    }
  }

  lemma SilentStep(c: Config, b: State, e: Event)
    requires c.remembers && b.flow.On? && Readable(b).Some? && Unanswered(e)
    requires b.note.value.tries + PickUpsIn(c, b, e) < 3
    ensures var d := Next(c, b, e);
      && d.flow.On? && d.note == Some(Note(b.note.value.version, b.note.value.tries + PickUpsIn(c, b, e)))
      && d.app == b.app && Installs(d.done) == Installs(b.done)
  {
    hide Resume, Handle, Greet, OfferIfNewer, Query, Installs;
    match e {
      case Connect(_) =>
      case Heard(v, kind, a) =>
        if kind.Hello? {
          GreetSilent(c, b.(proto := v, fw := kind.fw), a);
          HelloIs(c, b, v, kind.fw, a);
          OfferLeaves(c, Greet(c, b.(proto := v, fw := kind.fw), a), kind.fw, a);
        } else {
          SilentPickUp(c, b.(proto := v), a.now, a.q1, a.f1);
          HandleLeaves(c, Learn(c, b, v, false, a), v, kind, a);
        }
      case FoundRunning(fw, a) =>
        GreetSilent(c, b, a);
        OfferLeaves(c, Greet(c, b, a), fw, a);
      case RetryTick(a) =>
        QueryApps(c, b.(failedAt := None), b.fw, a.now, a.q2);
        QueryAhead(c, b.(failedAt := None), b.fw, a.now, a.q2);
    }
  }

  lemma HelloIs(c: Config, b: State, v: Option<int>, fw: string, a: Answers)
    requires b.flow.On?
    ensures var g := Greet(c, b.(proto := v, fw := fw), a);
      Next(c, b, Heard(v, Hello(fw), a)) == if g.flow.On? then OfferIfNewer(c, g, fw, a) else g
  {
    hide Greet, OfferIfNewer;
    assert Learn(c, b, v, true, a).(proto := v, fw := fw) == b.(proto := v, fw := fw);
  }

  lemma SilentPickUp(c: Config, b: State, now: int, q: QueryAnswer, f: FlashAnswer)
    requires c.remembers && Readable(b).Some? && b.note.value.tries < 3 && q.manifest.None?
    ensures var d := Resume(c, b, now, q, f); var note := b.note.value;
      && d.app == b.app && d.flow == b.flow && Installs(d.done) == Installs(b.done)
      && (note.tries + 1 < 3 ==> d.note == Some(Note(note.version, note.tries + 1)))
  {
    hide Resume, Installs, Newer, FloorMet, Levels;
    ResumeOutcome(c, b, now, q, f);
  }

  lemma GreetSilent(c: Config, b: State, a: Answers)
    requires c.remembers && Readable(b).Some? && b.note.value.tries < 3 && a.q1.manifest.None?
    ensures var d := Greet(c, b, a); var note := b.note.value;
      && d.app == b.app && d.flow == b.flow && Installs(d.done) == Installs(b.done)
      && (b.proto.None? ==> d.note == b.note)
      && (b.proto.Some? && note.tries + 1 < 3 ==> d.note == Some(Note(note.version, note.tries + 1)))
  {
    hide Resume, Installs;
    var b0 := Greeted(c, b);
    if b.proto.Some? { SilentPickUp(c, b0, a.now, a.q1, a.f1); }
  }

  /** A board greeted is welcomed, told what the last link could not tell it, and only
      then is an approval picked up. */
  lemma Greeted(c: Config, b: State) returns (b0: State)
    ensures b0.proto == b.proto && b0.fw == b.fw && b0.note == b.note && b0.app == b.app && b0.flow == b.flow
    ensures b0.report == None && Installs(b0.done) == Installs(b.done)
    ensures b0.done == b.done + [Say(Welcome)] + if b.report.Some? then [Say(OtaError(b.report.value))] else []
    ensures forall a :: Greet(c, b, a) == if b.proto.Some? then Resume(c, b0, a.now, a.q1, a.f1) else b0
  {
    hide Resume, Installs;
    var b1 := Do(b, Say(Welcome));
    InstallsDo(b, Say(Welcome));
    if b1.report.Some? { InstallsDo(b1, Say(OtaError(b1.report.value))); }
    b0 := if b1.report.Some? then Do(b1, Say(OtaError(b1.report.value))).(report := None) else b1;
  }

  lemma HandleLeaves(c: Config, b: State, v: Option<int>, kind: Kind, a: Answers)
    requires !kind.Tap? && !kind.Hello?
    ensures var d := Handle(c, b, v, kind, a);
      && d.note == b.note && d.app == b.app && d.flow == b.flow && Installs(d.done) == Installs(b.done)
      && (kind.Ping? ==> d == Do(b, Say(Pong))) && (kind.Other? ==> d == b)
  {
    hide Query, Installs;
    match kind {
      case Ping => InstallsDo(b, Say(Pong));
      case Asked(cur) =>
        QueryApps(c, b, cur, a.now, a.q2);
        QueryAhead(c, b, cur, a.now, a.q2);
      case Other =>
    }
  }

  lemma OfferLeaves(c: Config, b: State, fw: string, a: Answers)
    ensures var d := OfferIfNewer(c, b, fw, a);
      && d.note == b.note && d.app == b.app && d.flow == b.flow && Installs(d.done) == Installs(b.done)
      && (b.lastQueryAt == Some(a.now) ==> d == b)
  {
    hide Query, Installs;
    QueryApps(c, b, fw, a.now, a.q2);
    QueryAhead(c, b, fw, a.now, a.q2);
  }

  /** And when the feed answers in time the tapped version is installed. */
  lemma SilenceThenInstall(c: Config, b: State, events: seq<Event>, last: Event)
    requires c.remembers && b.flow.On? && b.note.Some? && b.note.value.version != ""
    requires forall i :: 0 <= i < |events| ==> Unanswered(events[i])
    requires b.note.value.tries + PickUps(c, b, events) < 3
    requires last.Heard? && last.v.Some? && last.kind.Hello?
    requires var fw := last.kind.fw; var a := last.answers;
      && Offers(c, b.(proto := last.v), if fw == "" then "0.0.0" else fw, a.q1)
      && a.q1.manifest.value.version == b.note.value.version && !(Levels(c, b, a.q1) && a.f1.updated)
      && c.flashes && a.f1.firmware.Some? && Matches(c, a.q1.manifest.value, a.f1.firmware.value)
    ensures var d := Next(c, Run(c, b, events), last);
      && d.note == None && Installs(d.done) == Installs(b.done) + 1
      && d.done[|d.done| - 1] == Flash(last.answers.q1.manifest.value, last.answers.f1.firmware.value)
  {
    hide Run, PickUps, Resume, OfferIfNewer, Installs, Matches, Newer, FloorMet, Unanswered;
    SilenceCounts(c, b, events);
    var r := Run(c, b, events);
    var a := last.answers;
    var b0 := Greeted(c, r.(proto := last.v, fw := last.kind.fw));
    HelloIs(c, r, last.v, last.kind.fw, a);
    ResumeOutcome(c, b0, a.now, a.q1, a.f1);
    ResumeAsked(c, b0, a.now, a.q1, a.f1);
    OfferLeaves(c, Resume(c, b0, a.now, a.q1, a.f1), last.kind.fw, a);
  }

  lemma ResumeAsked(c: Config, b: State, now: int, q: QueryAnswer, f: FlashAnswer)
    requires c.remembers && Readable(b).Some?
    ensures Resume(c, b, now, q, f).lastQueryAt == Some(now)
  {
    hide Query, WriteImage;
    QueryGrows(c, b, if b.fw == "" then "0.0.0" else b.fw, now, q);
    forall s: State
      ensures WriteImage(c, s, now, f).lastQueryAt == s.lastQueryAt
    {
      WriteImageAsks(c, s, now, f);
    }
  }

  lemma WriteImageAsks(c: Config, b: State, now: int, f: FlashAnswer)
    ensures WriteImage(c, b, now, f).lastQueryAt == b.lastQueryAt
  {
  }

  /** A board that says which firmware it runs is asked about once a minute at the most;
      after a failure, and after that only, once more when two minutes have passed. */
  lemma AsksIff(c: Config, b: State, fw: string, a: Answers)
    ensures var d := OfferIfNewer(c, b, fw, a);
      && (d.lastQueryAt == Some(a.now) && |d.done| == |b.done| + 1 <==>
           fw != "" && (b.lastQueryAt.None? || a.now - b.lastQueryAt.value >= 60))
      && (d == b || d.lastQueryAt == Some(a.now))
    ensures var d := Next(c, b, RetryTick(a));
      && (d.lastQueryAt == Some(a.now) && |d.done| == |b.done| + 1 <==>
           b.flow.On? && b.failedAt.Some? && b.fw != "" && a.now - b.failedAt.value >= 120)
      && (d == b || d.lastQueryAt == Some(a.now))
  {
    hide Query;
    QuerySays(c, b, fw, a.now, a.q2);
    QueryGrows(c, b, fw, a.now, a.q2);
    QuerySays(c, b.(failedAt := None), b.fw, a.now, a.q2);
    QueryGrows(c, b.(failedAt := None), b.fw, a.now, a.q2);
  }

  // --- a board ahead of the app ---

  function Installs(done: seq<Effect>): nat {
    if done == [] then 0 else Installs(done[..|done| - 1]) + if done[|done| - 1].Flash? then 1 else 0
  }

  lemma InstallsDo(b: State, e: Effect)
    ensures Installs(Do(b, e).done) == Installs(b.done) + if e.Flash? then 1 else 0
  {
    assert (b.done + [e])[..|b.done|] == b.done;
  }

  /** What lets the image through once the board has said yes. */
  predicate Downloads(c: Config, b: State, f: FlashAnswer) {
    && b.manifest.Some? && c.flashes && f.firmware.Some? && Matches(c, b.manifest.value, f.firmware.value)
    && !(b.appUpdate.Some? && c.selfUpdates && f.updated)
  }

  lemma WriteImageInstalls(c: Config, b: State, now: int, f: FlashAnswer)
    ensures var m := b.manifest;
      Installs(WriteImage(c, b, now, f).done) == Installs(b.done) +
      if m.Some? && c.flashes && f.firmware.Some? && Matches(c, m.value, f.firmware.value) then 1 else 0
  {
    hide Installs;
    var r := Reset(b, now);
    InstallsDo(b, Say(OtaError("nothing staged")));
    InstallsDo(b, Say(OtaError("no flasher configured")));
    InstallsDo(r, Say(OtaError("download failed")));
    InstallsDo(r, Say(OtaError("size mismatch")));
    InstallsDo(r, Say(OtaError("sha256 mismatch")));
    if b.manifest.Some? && f.firmware.Some? {
      var m := b.manifest.value;
      InstallsDo(r, Say(OtaBegin(m.version)));
      InstallsDo(Do(r, Say(OtaBegin(m.version))), Flash(m, f.firmware.value));
    }
  }

  lemma FlashNowInstalls(c: Config, b: State, now: int, f: FlashAnswer)
    ensures Installs(FlashNow(c, b, now, f).done) == Installs(b.done) + if Downloads(c, b, f) then 1 else 0
  {
    hide Installs, WriteImage, Matches;
    WriteImageInstalls(c, b, now, f);
    if b.manifest.Some? && b.appUpdate.Some? && c.selfUpdates {
      var b0 := b.(appUpdate := None);
      InstallsDo(b0, Approve(b.manifest.value.version));
      var b1 := Remember(c, b0, Approve(b.manifest.value.version));
      InstallsDo(b1, Replace(b.appUpdate.value));
      InstallsDo(b1, Spend);
      WriteImageInstalls(c, Remember(c, b1, Spend), now, f);
    }
  }

  lemma QueryAhead(c: Config, b: State, cur: string, now: int, q: QueryAnswer)
    ensures Installs(Query(c, b, cur, now, q).done) == Installs(b.done)
    ensures Ahead(c, b) ==> Query(c, b, cur, now, q).manifest.None? && Query(c, b, cur, now, q).proto == b.proto
    ensures Query(c, b, cur, now, q).flow == b.flow
  {
    hide Installs, Newer, Pairs;
    var d := Query(c, b, cur, now, q);
    InstallsDo(d.(done := b.done), d.done[|d.done| - 1]);
  }

  /** Picking up an approval over a board that is ahead writes nothing, and unstages. */
  lemma ResumeAhead(c: Config, b: State, now: int, q: QueryAnswer, f: FlashAnswer)
    requires Ahead(c, b)
    ensures var d := Resume(c, b, now, q, f);
      && Installs(d.done) == Installs(b.done) && d.proto == b.proto && d.flow == b.flow
      && (c.remembers && Readable(b).Some? ==> d.manifest.None?)
      && (!(c.remembers && Readable(b).Some?) ==> d == b)
  {
    hide Installs, Query, FlashNow;
    if c.remembers && Readable(b).Some? {
      var cur := if b.fw == "" then "0.0.0" else b.fw;
      var b1 := Query(c, b, cur, now, q);
      QueryAhead(c, b, cur, now, q);
      InstallsDo(b1, Spend);
      InstallsDo(b1, Bump);
      InstallsDo(Do(b1, Spend), Say(OtaError("could not read the release feed")));
    }
  }

  /** The guard is not asked again at the tap. A message from a board ahead of this
      app installs something exactly when it is a tap, an image was staged before the
      board's number was known or checked, no approval was waiting to be picked up
      with that number, and the download is good. */
  lemma AheadIsWrittenIff(c: Config, b: State, proto: int, kind: Kind, a: Answers)
    requires b.flow.On? && proto > c.proto && (b.proto == None || b.proto == Some(proto))
    ensures var d := OnMessage(c, b, Some(proto), kind, a);
      Installs(d.done) > Installs(b.done) <==>
      kind.Tap? && Downloads(c, b, a.f2) && (b.proto.Some? || !c.remembers || Readable(b).None?)
  {
    hide Installs, Resume, Query, FlashNow, Greet, OfferIfNewer, Matches;
    var b1 := b.(proto := Some(proto));
    ResumeAhead(c, b1, a.now, a.q1, a.f1);
    var l := Learn(c, b, Some(proto), kind.Hello?, a);
    match kind {
      case Ping => InstallsDo(l, Say(Pong));
      case Asked(cur) => QueryAhead(c, l, cur, a.now, a.q2);
      case Tap =>
        var staged := if l.manifest.Some? then Some(l.manifest.value.version) else None;
        InstallsDo(l, Tapped(staged));
        FlashNowInstalls(c, Do(l, Tapped(staged)), a.now, a.f2);
      case Hello(fw) =>
        var g := Greet(c, l.(proto := Some(proto), fw := fw), a);
        GreetAhead(c, l.(proto := Some(proto), fw := fw), a);
        OfferAhead(c, g, fw, a);
      case Other =>
    }
  }

  /** An image can be staged before the number is known: a board found already
      running is offered one on the firmware version remembered for it. */
  lemma FoundRunningStages(c: Config, b: State, fw: string, a: Answers)
    requires b.flow.On? && b.proto.None? && b.lastQueryAt.None? && fw != ""
    requires a.q2.manifest.Some? && Newer(c, a.q2.manifest.value.version, fw) && !Floored(c, a.q2)
    ensures var d := Next(c, b, FoundRunning(fw, a)); var m := a.q2.manifest.value;
      d.proto.None? && (d.manifest == Some(m) <==> Pairs(c, b, m.version, AppAvailable(c, b, a.q2)))
  {
    hide Newer, FloorMet;
  }

  lemma GreetAhead(c: Config, b: State, a: Answers)
    requires Ahead(c, b)
    ensures var d := Greet(c, b, a);
      && Installs(d.done) == Installs(b.done) && d.proto == b.proto && d.flow == b.flow
      && (b.manifest.None? ==> d.manifest.None?)
  {
    hide Installs, Resume;
    var b1 := Do(b, Say(Welcome));
    InstallsDo(b, Say(Welcome));
    if b1.report.Some? {
      InstallsDo(b1, Say(OtaError(b1.report.value)));
      ResumeAhead(c, Do(b1, Say(OtaError(b1.report.value))).(report := None), a.now, a.q1, a.f1);
    } else {
      ResumeAhead(c, b1, a.now, a.q1, a.f1);
    }
  }

  lemma OfferAhead(c: Config, b: State, fw: string, a: Answers)
    requires Ahead(c, b)
    ensures var d := OfferIfNewer(c, b, fw, a);
      && Installs(d.done) == Installs(b.done) && d.proto == b.proto && d.flow == b.flow
      && (b.manifest.None? ==> d.manifest.None?)
  {
    hide Installs, Query;
    QueryAhead(c, b, fw, a.now, a.q2);
  }

  /** The board is ahead in all it says, and greets before it is offered anything. */
  predicate SpeaksAhead(c: Config, e: Event) {
    match e
    case Heard(v, _, _) => v.Some? && v.value > c.proto
    case FoundRunning(_, _) => false
    case RetryTick(_) => true
    case Connect(_) => true
    case Killed(during, _) => SpeaksAhead(c, during)
  }

  /** Nothing is staged, nor asked for before the board's number is known. */
  predicate Unstaged(c: Config, b: State) {
    b.manifest.None? && b.flow.On? && (Ahead(c, b) || (b.proto.None? && b.failedAt.None?))
  }

  /** With nothing staged when its number is learnt, a board that is ahead is never
      written, whatever it and the feed say and whenever the daemon dies. */
  lemma {:induction false} AheadStaysUnwritten(c: Config, app: string, b: State, events: seq<Event>)
    requires Inv(c, app, b) && Unstaged(c, b)
    requires forall i :: 0 <= i < |events| ==> SpeaksAhead(c, events[i])
    ensures Unstaged(c, Run(c, b, events)) && Installs(Run(c, b, events).done) == Installs(b.done)
    decreases |events|
  {
    hide Inv, Next, Installs, Unstaged, SpeaksAhead;
    if events != [] {
      AheadStepUnwritten(c, app, b, events[0]);
      NextKeeps(c, app, b, events[0]);
      AheadStaysUnwritten(c, app, Next(c, b, events[0]), events[1..]);
    }
  }

  lemma {:induction false} AheadStepUnwritten(c: Config, app: string, b: State, e: Event)
    requires Inv(c, app, b) && Unstaged(c, b) && SpeaksAhead(c, e)
    ensures Unstaged(c, Next(c, b, e)) && Installs(Next(c, b, e).done) == Installs(b.done)
    decreases e
  {
    hide Inv, Installs, Query, OnMessage;
    match e {
      case Connect(report) =>
      case Heard(v, kind, a) => AheadHeardUnwritten(c, b, v.value, kind, a);
      case RetryTick(a) => QueryAhead(c, b.(failedAt := None), b.fw, a.now, a.q2);
      case Killed(during, kept) =>
        AheadStepUnwritten(c, app, b, during);
        DoneGrows(c, app, b, during);
        InstallsFront(Next(c, b, during).done, |b.done|);
        if |b.done| <= kept <= |Next(c, b, during).done| {
          var done := Next(c, b, during).done;
          InstallsFront(done, kept);
          InstallsFront(done[..kept], |b.done|);
          assert done[..kept][..|b.done|] == b.done;
        }
    }
  }

  lemma DoneGrows(c: Config, app: string, b: State, e: Event)
    requires Inv(c, app, b)
    ensures b.done <= Next(c, b, e).done
  {
    hide Inv, Next, Replaced, Spare, PickUpsIn, NamedBy;
    InvStaged(c, app, b);
    NextMoves(c, app, b, e, NamedBy(e) + Replaced(b.done) + if b.appUpdate.Some? then {b.appUpdate.value} else {});
  }

  lemma {:induction false} InstallsFront(done: seq<Effect>, n: nat)
    requires n <= |done|
    ensures Installs(done[..n]) <= Installs(done)
    decreases |done|
  {
    if n == |done| {
      assert done[..n] == done;
    } else {
      InstallsFront(done[..|done| - 1], n);
      assert done[..|done| - 1][..n] == done[..n];
    }
  }

  lemma AheadHeardUnwritten(c: Config, b: State, proto: int, kind: Kind, a: Answers)
    requires Unstaged(c, b) && proto > c.proto
    ensures var d := OnMessage(c, b, Some(proto), kind, a);
      d.manifest.None? && Ahead(c, d) && d.flow.On? && Installs(d.done) == Installs(b.done)
  {
    hide Installs, Resume, Query, FlashNow, Greet, OfferIfNewer, Matches;
    ResumeAhead(c, b.(proto := Some(proto)), a.now, a.q1, a.f1);
    var l := Learn(c, b, Some(proto), kind.Hello?, a);
    match kind {
      case Ping => InstallsDo(l, Say(Pong));
      case Asked(cur) => QueryAhead(c, l, cur, a.now, a.q2);
      case Tap =>
        InstallsDo(l, Tapped(None));
        var t := Do(l, Tapped(None));
        FlashNowInstalls(c, t, a.now, a.f2);
        NothingStaged(c, t, a.now, a.f2);
      case Hello(fw) =>
        var g := Greet(c, l.(proto := Some(proto), fw := fw), a);
        GreetAhead(c, l.(proto := Some(proto), fw := fw), a);
        OfferAhead(c, g, fw, a);
      case Other =>
    }
  }

  lemma NothingStaged(c: Config, b: State, now: int, f: FlashAnswer)
    requires b.manifest.None?
    ensures FlashNow(c, b, now, f) == Do(b, Say(OtaError("nothing staged")))
  {
  }

  /** Every approval is answered: an error on the panel, an install begun, or a
      restart into the program that will go on with it. */
  lemma TapIsAnswered(c: Config, b: State, now: int, f: FlashAnswer)
    ensures var d := FlashNow(c, b, now, f);
      b.done <= d.done && |b.done| < |d.done| && Answered(b, d)
  {
    hide WriteImage;
    if b.manifest.Some? && b.appUpdate.Some? && c.selfUpdates {
      var b1 := Remember(c, b.(appUpdate := None), Approve(b.manifest.value.version));
      WriteImageAnswers(c, Remember(c, b1, Spend), now, f);
    } else {
      WriteImageAnswers(c, b, now, f);
    }
  }

  ghost predicate Answered(b: State, d: State) {
    d.done != [] &&
    match d.done[|d.done| - 1]
    case Say(m) => m.OtaError? && d.flow == b.flow
    case Flash(m, _) => |d.done| >= 2 && d.done[|d.done| - 2] == Say(OtaBegin(m.version)) && Some(m) == b.manifest
    case Replace(app) => Some(app) == b.appUpdate && d.flow.Restarted?
    case _ => false
  }

  lemma WriteImageAnswers(c: Config, b: State, now: int, f: FlashAnswer)
    ensures var d := WriteImage(c, b, now, f);
      b.done <= d.done && |b.done| < |d.done| && Answered(b, d)
  {
  }

}
