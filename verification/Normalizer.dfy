/** Many readings of one account into one frame: recency field by field, readings of
    a window that has since emptied refused, and the countdown the board is sent. */
module Normalizer {
  import opened Wrappers

  const UNKNOWN: real := -1.0
  const STALE_AFTER_S: real := 1800.0
  const COUNTDOWN_MAX_S: int := 999999

  /** What travels with a state: counts by state, agents, and the one session's label. */
  datatype Desk = Desk(run: nat, wait: nat, stuck: nat, idle: nat, agents: nat, project: string)

  const NO_DESK := Desk(0, 0, 0, 0, 0, "")

  datatype Frame = Frame(
    provider: string, src: string, observedAt: real, activeAt: real,
    sessionPct: real, sessionResetsAt: Option<real>,
    weeklyPct: real, weeklyResetsAt: Option<real>,
    state: string, stale: bool, burn: Option<real>,
    sessionRolledAt: Option<real>, weeklyRolledAt: Option<real>, desk: Desk)

  predicate Known(pct: real) {
    pct >= 0.0
  }

  // --- the freshest frame with a field ---

  function Pick(frames: seq<Frame>, has: Frame -> bool): Option<Frame> {
    if frames == [] then None
    else
      var n := |frames| - 1;
      var best := Pick(frames[..n], has);
      if !has(frames[n]) || (best.Some? && frames[n].observedAt <= best.value.observedAt) then best
      else Some(frames[n])
  }

  method PickLoop(frames: seq<Frame>, has: Frame -> bool) returns (best: Option<Frame>)
    ensures best == Pick(frames, has)
  {
    best := None;
    var i := 0;
    while i < |frames|
      invariant 0 <= i <= |frames| && best == Pick(frames[..i], has)
    {
      assert frames[..i + 1][..i] == frames[..i];
      if has(frames[i]) && (best.None? || frames[i].observedAt > best.value.observedAt) {
        best := Some(frames[i]);
      }
      i := i + 1;
    }
    assert frames[..i] == frames;
  }

  lemma {:induction false} PickIsFreshest(frames: seq<Frame>, has: Frame -> bool)
    ensures var p := Pick(frames, has);
      match p
      case None => forall f :: f in frames ==> !has(f)
      case Some(f) => f in frames && has(f) && forall g :: g in frames && has(g) ==> g.observedAt <= f.observedAt
  {
    if frames != [] {
      var n := |frames| - 1;
      PickIsFreshest(frames[..n], has);
      assert frames == frames[..n] + [frames[n]];
    }
  }

  /** No two different frames were taken at the same moment. */
  ghost predicate DistinctTimes(frames: seq<Frame>) {
    forall f, g :: f in frames && g in frames && f.observedAt == g.observedAt ==> f == g
  }

  ghost predicate SameFrames(a: seq<Frame>, b: seq<Frame>) {
    forall f :: f in a <==> f in b
  }

  lemma PickIgnoresOrder(a: seq<Frame>, b: seq<Frame>, has: Frame -> bool)
    requires DistinctTimes(a) && SameFrames(a, b)
    ensures Pick(a, has) == Pick(b, has)
  {
    PickIsFreshest(a, has);
    PickIsFreshest(b, has);
    var p, q := Pick(a, has), Pick(b, has);
    if p.Some? && q.Some? {
      assert p.value in a && q.value in a;
    }
  }

  // --- the latest of some moments ---

  datatype Window = Session | Weekly

  function RolledOf(f: Frame, w: Window): Option<real> {
    if w.Session? then f.sessionRolledAt else f.weeklyRolledAt
  }

  /** The latest rollover any source saw of this window. */
  function RolledAt(frames: seq<Frame>, w: Window): Option<real> {
    if frames == [] then None
    else
      var n := |frames| - 1;
      var best := RolledAt(frames[..n], w);
      var at := RolledOf(frames[n], w);
      if at.Some? && (best.None? || at.value > best.value) then at else best
  }

  method RolledLoop(frames: seq<Frame>, w: Window) returns (best: Option<real>)
    ensures best == RolledAt(frames, w)
  {
    best := None;
    var i := 0;
    while i < |frames|
      invariant 0 <= i <= |frames| && best == RolledAt(frames[..i], w)
    {
      assert frames[..i + 1][..i] == frames[..i];
      var at := RolledOf(frames[i], w);
      if at.Some? && (best.None? || at.value > best.value) {
        best := at;
      }
      i := i + 1;
    }
    assert frames[..i] == frames;
  }

  lemma {:induction false} RolledIsLatest(frames: seq<Frame>, w: Window)
    ensures var r := RolledAt(frames, w);
      match r
      case None => forall f :: f in frames ==> RolledOf(f, w).None?
      case Some(at) =>
        && (exists f :: f in frames && RolledOf(f, w) == Some(at))
        && forall f :: f in frames && RolledOf(f, w).Some? ==> RolledOf(f, w).value <= at
  {
    if frames != [] {
      var n := |frames| - 1;
      RolledIsLatest(frames[..n], w);
      assert frames == frames[..n] + [frames[n]];
      var best := RolledAt(frames[..n], w);
      if best.Some? {
        var f :| f in frames[..n] && RolledOf(f, w) == best;
        assert f in frames;
      }
      assert frames[n] in frames;
    }
  }

  lemma RolledIgnoresOrder(a: seq<Frame>, b: seq<Frame>, w: Window)
    requires SameFrames(a, b)
    ensures RolledAt(a, w) == RolledAt(b, w)
  {
    RolledIsLatest(a, w);
    RolledIsLatest(b, w);
    var r, s := RolledAt(a, w), RolledAt(b, w);
    if r.Some? {
      var f :| f in a && RolledOf(f, w) == r;
      assert f in b;
    }
    if s.Some? {
      var f :| f in b && RolledOf(f, w) == s;
      assert f in a;
    }
  }

  function Latest(frames: seq<Frame>): real
    requires frames != []
  {
    var n := |frames| - 1;
    if n == 0 then frames[0].activeAt
    else if frames[n].activeAt > Latest(frames[..n]) then frames[n].activeAt else Latest(frames[..n])
  }

  lemma {:induction false} LatestIsMax(frames: seq<Frame>)
    requires frames != []
    ensures exists f :: f in frames && f.activeAt == Latest(frames)
    ensures forall f :: f in frames ==> f.activeAt <= Latest(frames)
  {
    var n := |frames| - 1;
    assert frames == frames[..n] + [frames[n]];
    if n > 0 {
      LatestIsMax(frames[..n]);
      var f :| f in frames[..n] && f.activeAt == Latest(frames[..n]);
      assert f in frames && frames[n] in frames;
    } else {
      assert frames[0] in frames;
    }
  }

  lemma LatestIgnoresOrder(a: seq<Frame>, b: seq<Frame>)
    requires SameFrames(a, b) && a != [] && b != []
    ensures Latest(a) == Latest(b)
  {
    LatestIsMax(a);
    LatestIsMax(b);
    var f :| f in a && f.activeAt == Latest(a);
    var g :| g in b && g.activeAt == Latest(b);
    assert f in b && g in a;
  }

  // --- merging ---

  /** Taken at or after the reset, or by the source that accounted for one. */
  predicate Survives(f: Frame, rolled: Option<real>, w: Window) {
    rolled.None? || f.observedAt >= rolled.value || RolledOf(f, w).Some?
  }

  function PctOf(f: Frame, w: Window): real {
    if w.Session? then f.sessionPct else f.weeklyPct
  }

  function HasPct(rolled: Option<real>, w: Window): Frame -> bool {
    (f: Frame) => Known(PctOf(f, w)) && Survives(f, rolled, w)
  }

  function HasBurn(rolled: Option<real>): Frame -> bool {
    (f: Frame) => f.burn.Some? && Survives(f, rolled, Session)
  }

  function HasSessionReset(): Frame -> bool {
    (f: Frame) => f.sessionResetsAt.Some?
  }

  function HasWeeklyReset(): Frame -> bool {
    (f: Frame) => f.weeklyResetsAt.Some?
  }

  function HasState(): Frame -> bool {
    (f: Frame) => f.state != ""
  }

  /** One frame of one provider's, or None when nothing there carries a percentage. */
  function Merge(frames: seq<Frame>): Option<Frame> {
    if frames == [] then None
    else
      var sRolled, wRolled := RolledAt(frames, Session), RolledAt(frames, Weekly);
      var session := Pick(frames, HasPct(sRolled, Session));
      var weekly := Pick(frames, HasPct(wRolled, Weekly));
      if session.None? && weekly.None? then None
      else
        var sReset, wReset := Pick(frames, HasSessionReset()), Pick(frames, HasWeeklyReset());
        var state := Pick(frames, HasState());
        var burn := Pick(frames, HasBurn(sRolled));
        var primary := if session.Some? then session.value else weekly.value;
        Some(Frame(
          frames[0].provider, primary.src, primary.observedAt, Latest(frames),
          if session.Some? then session.value.sessionPct else UNKNOWN,
          if sReset.Some? then sReset.value.sessionResetsAt else None,
          if weekly.Some? then weekly.value.weeklyPct else UNKNOWN,
          if wReset.Some? then wReset.value.weeklyResetsAt else None,
          if state.Some? then state.value.state else "",
          primary.stale,
          if sReset.None? && burn.Some? then burn.value.burn else None,
          sRolled, wRolled,
          if state.Some? then state.value.desk else NO_DESK))
  }

  ghost predicate OneProvider(frames: seq<Frame>) {
    forall f, g :: f in frames && g in frames ==> f.provider == g.provider
  }

  lemma SameEmpty(a: seq<Frame>, b: seq<Frame>)
    requires SameFrames(a, b)
    ensures |b| > 0 ==> |a| > 0
  {
    if |b| > 0 {
      assert b[0] in a;
    }
  }

  /** Frames taken at distinct moments merge to the same frame in any order, and
      however often each was handed in. */
  lemma MergeIgnoresOrder(a: seq<Frame>, b: seq<Frame>)
    requires DistinctTimes(a) && SameFrames(a, b) && OneProvider(a)
    ensures Merge(a) == Merge(b)
  {
    hide Pick, RolledAt, Latest, DistinctTimes;
    if a == [] {
      SameEmpty(a, b);
    } else {
      assert a[0] in b;
      assert b[0] in a;
      RolledIgnoresOrder(a, b, Session);
      RolledIgnoresOrder(a, b, Weekly);
      LatestIgnoresOrder(a, b);
      PickIgnoresOrder(a, b, HasPct(RolledAt(a, Session), Session));
      PickIgnoresOrder(a, b, HasPct(RolledAt(a, Weekly), Weekly));
      PickIgnoresOrder(a, b, HasSessionReset());
      PickIgnoresOrder(a, b, HasWeeklyReset());
      PickIgnoresOrder(a, b, HasState());
      PickIgnoresOrder(a, b, HasBurn(RolledAt(a, Session)));
    }
  }

  lemma PickOne(f: Frame, has: Frame -> bool)
    ensures Pick([f], has) == if has(f) then Some(f) else None
    ensures forall w :: RolledAt([f], w) == RolledOf(f, w)
    ensures Latest([f]) == f.activeAt
  {
    assert [f][..0] == [];
  }

  /** A merged frame is a valid input: merged alone it comes back unchanged. */
  lemma MergeTwice(frames: seq<Frame>)
    requires Merge(frames).Some?
    ensures Merge([Merge(frames).value]) == Merge(frames)
  {
    hide Pick, RolledAt, Latest;
    var m := Merge(frames).value;
    PickIsFreshest(frames, HasPct(RolledAt(frames, Session), Session));
    PickIsFreshest(frames, HasPct(RolledAt(frames, Weekly), Weekly));
    PickIsFreshest(frames, HasSessionReset());
    PickIsFreshest(frames, HasWeeklyReset());
    PickIsFreshest(frames, HasState());
    PickIsFreshest(frames, HasBurn(RolledAt(frames, Session)));
    PickOne(m, HasPct(m.sessionRolledAt, Session));
    PickOne(m, HasPct(m.weeklyRolledAt, Weekly));
    PickOne(m, HasSessionReset());
    PickOne(m, HasWeeklyReset());
    PickOne(m, HasState());
    PickOne(m, HasBurn(m.sessionRolledAt));
  }

  // --- the countdown ---

  function Ceil(x: real): int {
    -((-x).Floor)
  }

  function SecsUntil(resetsAt: Option<real>, now: real): int {
    if resetsAt.None? || resetsAt.value <= now then -1
    else
      var c := Ceil(resetsAt.value - now);
      var up := if c > 1 then c else 1;
      if up < COUNTDOWN_MAX_S then up else COUNTDOWN_MAX_S
  }

  /** Never 0, which the board reads as a window that just emptied: -1 exactly when
      the time is unknown or past, else whole seconds rounded up, at most the cap. */
  lemma CountdownIsNeverZero(resetsAt: Option<real>, now: real)
    ensures var s := SecsUntil(resetsAt, now);
      && (s == -1 || 1 <= s <= 999999)
      && (s == -1 <==> resetsAt.None? || resetsAt.value <= now)
      && (s != -1 ==> (s - 1) as real < resetsAt.value - now)
      && (s != -1 && s != 999999 ==> resetsAt.value - now <= s as real)
  {
  }

  /** The wire message never has a burn rate beside a session countdown: the rate is
      carried only when no source knew a reset, and then the countdown is -1. */
  lemma BurnExcludesCountdown(frames: seq<Frame>, now: real)
    requires Merge(frames).Some? && Merge(frames).value.burn.Some?
    ensures Merge(frames).value.sessionResetsAt == None
    ensures SecsUntil(Merge(frames).value.sessionResetsAt, now) == -1
    ensures forall f :: f in frames ==> f.sessionResetsAt.None?
  {
    hide Pick, RolledAt, Latest;
    PickIsFreshest(frames, HasSessionReset());
  }

  // --- a window that has emptied ---

  function RolledOver(pct: real, resetsAt: Option<real>, now: real, stale: bool): (real, Option<real>, Option<real>) {
    if resetsAt.Some? && now >= resetsAt.value
    then (if stale || pct < 0.0 then UNKNOWN else 0.0, None, resetsAt)
    else (pct, resetsAt, None)
  }

  /** One window of the payload: a percentage, unknown when absent or not a number,
      and when the window ends. */
  datatype Limits = Limits(session: (real, Option<real>), weekly: (real, Option<real>))

  const CLAUDE := "claude"
  const CLI := "cli"

  function StatuslineFrame(p: Limits, now: real, mtime: real): Frame {
    var stale := now - mtime > STALE_AFTER_S;
    var (sPct, sReset, sRolled) := RolledOver(p.session.0, p.session.1, now, stale);
    var (wPct, wReset, wRolled) := RolledOver(p.weekly.0, p.weekly.1, now, stale);
    Frame(CLAUDE, CLI, mtime, mtime, sPct, sReset, wPct, wReset, "", stale, None, sRolled, wRolled, NO_DESK)
  }

  /** Which frame a merged percentage or rate came from, and why it was believed. */
  lemma MergedComesFrom(frames: seq<Frame>, w: Window)
    requires Merge(frames).Some?
    ensures var m := Merge(frames).value; var rolled := RolledAt(frames, w);
      && (PctOf(m, w) == UNKNOWN ||
          exists f :: f in frames && PctOf(f, w) == PctOf(m, w) && Survives(f, rolled, w))
      && (m.burn.Some? ==> exists f :: f in frames && f.burn == m.burn && Survives(f, RolledAt(frames, Session), Session))
      && RolledOf(m, w) == rolled
  {
    hide Pick, RolledAt, Latest;
    PickIsFreshest(frames, HasPct(RolledAt(frames, Session), Session));
    PickIsFreshest(frames, HasPct(RolledAt(frames, Weekly), Weekly));
    PickIsFreshest(frames, HasBurn(RolledAt(frames, Session)));
  }

  /** A source that watched the window empty has no reading of it to offer, and no
      rate either. */
  predicate Accounts(f: Frame, w: Window) {
    RolledOf(f, w).Some? ==> (PctOf(f, w) == 0.0 || PctOf(f, w) == UNKNOWN) && (w.Session? ==> f.burn.None?)
  }

  /** A status line does that at every moment, fresh or stale, and carries the evidence
      exactly once its window has ended: until then it relays what it read, afterwards a
      fresh reading counts as 0 and a stale or missing one as unknown. */
  lemma StatuslineAccounts(p: Limits, now: real, mtime: real, w: Window)
    ensures var s := StatuslineFrame(p, now, mtime);
      var (pct, end) := if w.Session? then p.session else p.weekly;
      var ended := end.Some? && end.value <= now;
      && Accounts(s, w)
      && RolledOf(s, w) == (if ended then end else None)
      && ResetOf(s, w) == (if ended then None else end)
      && PctOf(s, w) == (if !ended then pct else if pct >= 0.0 && now - mtime <= 1800.0 then 0.0 else UNKNOWN)
      && s.observedAt == s.activeAt == mtime && (s.stale <==> now - mtime > 1800.0)
      && s.state == "" && s.burn == None
  {
  }

  function ResetOf(f: Frame, w: Window): Option<real> {
    if w.Session? then f.sessionResetsAt else f.weeklyResetsAt
  }

  /** A forgiven reading never returns: whatever frames are merged, however many of them
      saw a reset and whichever, the merged percentage is 0, unknown, or was read at the
      latest reset or later, and so was any burn rate. */
  lemma ForgivenNeverReturns(frames: seq<Frame>, w: Window, r: real)
    requires Merge(frames).Some? && RolledAt(frames, w) == Some(r)
    requires forall f :: f in frames ==> Accounts(f, w)
    ensures var m := Merge(frames).value;
      && (PctOf(m, w) == 0.0 || PctOf(m, w) == UNKNOWN ||
          exists f :: f in frames && PctOf(f, w) == PctOf(m, w) && f.observedAt >= r)
      && (w.Session? && m.burn.Some? ==> exists f :: f in frames && f.burn == m.burn && f.observedAt >= r)
  {
    hide Merge, RolledAt;
    MergedComesFrom(frames, w);
  }

  /** So of a status line whose window has ended, at every moment since: merged with any
      frames that account for what they saw, nothing read before that end comes back. */
  lemma EndedWindowStaysForgiven(p: Limits, now: real, mtime: real, frames: seq<Frame>, w: Window)
    requires StatuslineFrame(p, now, mtime) in frames && Merge(frames).Some?
    requires forall f :: f in frames ==> Accounts(f, w)
    requires var end := if w.Session? then p.session.1 else p.weekly.1; end.Some? && end.value <= now
    ensures var end := (if w.Session? then p.session.1 else p.weekly.1).value; var m := Merge(frames).value;
      && (PctOf(m, w) == 0.0 || PctOf(m, w) == UNKNOWN ||
          exists f :: f in frames && PctOf(f, w) == PctOf(m, w) && f.observedAt >= end)
      && (w.Session? && m.burn.Some? ==> exists f :: f in frames && f.burn == m.burn && f.observedAt >= end)
  {
    hide Merge, RolledAt, Accounts;
    StatuslineAccounts(p, now, mtime, w);
    RolledIsLatest(frames, w);
    ForgivenNeverReturns(frames, w, RolledAt(frames, w).value);
  }

  /** The dial shows a reading taken before the latest reset of its window. */
  ghost predicate Returns(frames: seq<Frame>, w: Window) {
    var rolled := RolledAt(frames, w);
    var shown := Pick(frames, HasPct(rolled, w));
    rolled.Some? && shown.Some? && PctOf(shown.value, w) > 0.0 && shown.value.observedAt < rolled.value
  }

  /** The frame at `i` is the first of the freshest that have the field. */
  ghost predicate Wins(frames: seq<Frame>, has: Frame -> bool, i: nat) {
    && i < |frames| && has(frames[i])
    && forall j :: 0 <= j < |frames| && has(frames[j]) ==>
         frames[j].observedAt < frames[i].observedAt || (i <= j && frames[j].observedAt == frames[i].observedAt)
  }

  lemma {:induction false} PickWins(frames: seq<Frame>, has: Frame -> bool)
    ensures forall i: nat :: Wins(frames, has, i) ==> Pick(frames, has) == Some(frames[i])
    ensures Pick(frames, has).Some? ==> exists i: nat :: Wins(frames, has, i) && frames[i] == Pick(frames, has).value
  {
    if frames != [] {
      var n := |frames| - 1;
      var before := frames[..n];
      PickWins(before, has);
      PickIsFreshest(before, has);
      var best := Pick(before, has);
      if best.Some? {
        var k: nat :| Wins(before, has, k) && before[k] == best.value;
        WinsStill(frames, has, k);
      } else {
        WinsAlone(frames, has);
      }
      forall i: nat | Wins(frames, has, i)
        ensures Pick(frames, has) == Some(frames[i])
      {
        if i < n {
          assert Wins(before, has, i);
        }
      }
    }
  }

  lemma WinsStill(frames: seq<Frame>, has: Frame -> bool, k: nat)
    requires frames != [] && Wins(frames[..|frames| - 1], has, k)
    ensures var n := |frames| - 1;
      if has(frames[n]) && frames[n].observedAt > frames[k].observedAt then Wins(frames, has, n) else Wins(frames, has, k)
  {
    var n := |frames| - 1;
    forall j | 0 <= j < n
      ensures frames[..n][j] == frames[j]
    {
    }
  }

  lemma WinsAlone(frames: seq<Frame>, has: Frame -> bool)
    requires frames != [] && forall f :: f in frames[..|frames| - 1] ==> !has(f)
    ensures has(frames[|frames| - 1]) ==> Wins(frames, has, |frames| - 1)
  {
    forall j | 0 <= j < |frames| - 1
      ensures !has(frames[j])
    {
      assert frames[j] in frames[..|frames| - 1];
    }
  }

  // --- each field of a merged frame ---

  datatype Field = Dial(w: Window) | Reset(w: Window) | State | Burn

  /** The frame has the field, and no frame saw a reset since that empties it. */
  ghost predicate Carries(frames: seq<Frame>, f: Frame, x: Field) {
    match x
    case Dial(w) => PctOf(f, w) >= 0.0 && Unforgiven(frames, f, w)
    case Reset(w) => ResetOf(f, w).Some?
    case State => f.state != ""
    case Burn => f.burn.Some? && Unforgiven(frames, f, Session)
  }

  ghost predicate Unforgiven(frames: seq<Frame>, f: Frame, w: Window) {
    RolledOf(f, w).Some? || forall g :: g in frames && RolledOf(g, w).Some? ==> f.observedAt >= RolledOf(g, w).value
  }

  /** The frame at `i` has the field, and none with it is fresher, or as fresh and
      before it in the list. */
  ghost predicate Gives(frames: seq<Frame>, x: Field, i: nat) {
    && i < |frames| && Carries(frames, frames[i], x)
    && forall j :: 0 <= j < |frames| && Carries(frames, frames[j], x) ==>
         frames[j].observedAt < frames[i].observedAt || (i <= j && frames[j].observedAt == frames[i].observedAt)
  }

  /** The loop's test for each field. */
  function Test(frames: seq<Frame>, x: Field): Frame -> bool {
    match x
    case Dial(w) => HasPct(RolledAt(frames, w), w)
    case Reset(w) => if w.Session? then HasSessionReset() else HasWeeklyReset()
    case State => HasState()
    case Burn => HasBurn(RolledAt(frames, Session))
  }

  lemma UnforgivenIsSurvives(frames: seq<Frame>, f: Frame, w: Window)
    ensures Unforgiven(frames, f, w) <==> Survives(f, RolledAt(frames, w), w)
  {
    hide RolledAt, RolledOf;
    RolledIsLatest(frames, w);
  }

  lemma CarriesIsTest(frames: seq<Frame>, f: Frame, x: Field)
    ensures Carries(frames, f, x) <==> Test(frames, x)(f)
  {
    hide RolledAt, Unforgiven, Survives;
    match x {
      case Dial(w) => UnforgivenIsSurvives(frames, f, w);
      case Burn => UnforgivenIsSurvives(frames, f, Session);
      case _ =>
    }
  }

  /** The frame that gives a field is the one picked, and there is one if any has it. */
  lemma GivenIsPicked(frames: seq<Frame>, x: Field)
    ensures forall i: nat :: Gives(frames, x, i) ==> Pick(frames, Test(frames, x)) == Some(frames[i])
    ensures (forall f :: f in frames ==> !Carries(frames, f, x)) <==> Pick(frames, Test(frames, x)) == None
    ensures (exists f :: f in frames && Carries(frames, f, x)) ==> exists i: nat :: Gives(frames, x, i)
  {
    hide Pick, Carries, Test;
    var has := Test(frames, x);
    forall f
      ensures Carries(frames, f, x) <==> has(f)
    {
      CarriesIsTest(frames, f, x);
    }
    PickWins(frames, has);
    PickIsFreshest(frames, has);
    forall i: nat
      ensures Gives(frames, x, i) <==> Wins(frames, has, i)
    {
    }
  }

  /** What a merged frame says, field by field. There is one exactly when some frame has
      a percentage that was not forgiven since. Each percentage and reset time is that of
      the freshest frame that has one; the state comes with the counts, agents and label
      of the freshest frame that has a state; the source, moment and staleness are those
      of the frame the session percentage came from, or else the weekly one; the last
      contact and the rollovers are the latest of any; and a burn rate is carried only
      where no frame knew the session's reset. */
  lemma MergedFields(frames: seq<Frame>)
    ensures Merge(frames).Some? <==> !Lacks(frames, Dial(Session)) || !Lacks(frames, Dial(Weekly))
    ensures Merge(frames).Some? ==>
      var m := Merge(frames).value;
      && m.provider == frames[0].provider
      && (forall i: nat :: Gives(frames, Dial(Session), i) ==> Primary(m, frames[i]) && m.sessionPct == frames[i].sessionPct)
      && (forall i: nat :: Gives(frames, Dial(Weekly), i) ==> m.weeklyPct == frames[i].weeklyPct)
      && (Lacks(frames, Dial(Session)) ==> m.sessionPct == UNKNOWN)
      && (Lacks(frames, Dial(Session)) ==> forall i: nat :: Gives(frames, Dial(Weekly), i) ==> Primary(m, frames[i]))
      && (Lacks(frames, Dial(Weekly)) ==> m.weeklyPct == UNKNOWN)
    ensures Merge(frames).Some? ==>
      var m := Merge(frames).value;
      && (forall i: nat :: Gives(frames, State, i) ==> m.state == frames[i].state && m.desk == frames[i].desk)
      && (Lacks(frames, State) ==> m.state == "" && m.desk == Desk(0, 0, 0, 0, 0, ""))
      && (forall i: nat :: Gives(frames, Reset(Session), i) ==> m.sessionResetsAt == frames[i].sessionResetsAt && m.burn == None)
      && (Lacks(frames, Reset(Session)) ==> m.sessionResetsAt == None)
      && (forall i: nat :: Gives(frames, Reset(Weekly), i) ==> m.weeklyResetsAt == frames[i].weeklyResetsAt)
      && (Lacks(frames, Reset(Weekly)) ==> m.weeklyResetsAt == None)
      && (Lacks(frames, Reset(Session)) ==> forall i: nat :: Gives(frames, Burn, i) ==> m.burn == frames[i].burn)
      && (Lacks(frames, Burn) ==> m.burn == None)
    ensures Merge(frames).Some? ==>
      var m := Merge(frames).value;
      && (forall f :: f in frames ==> f.activeAt <= m.activeAt) && (exists f :: f in frames && f.activeAt == m.activeAt)
      && LatestRollover(frames, Session, m.sessionRolledAt) && LatestRollover(frames, Weekly, m.weeklyRolledAt)
  {
    hide Pick, RolledAt, Latest, Carries, Gives, HasPct, HasBurn, HasState, HasSessionReset, HasWeeklyReset, RolledOf;
    GivenIsPicked(frames, Dial(Session));
    GivenIsPicked(frames, Dial(Weekly));
    GivenIsPicked(frames, State);
    GivenIsPicked(frames, Reset(Session));
    GivenIsPicked(frames, Reset(Weekly));
    GivenIsPicked(frames, Burn);
    NothingGiven(frames);
    if Merge(frames).Some? {
      LatestIsMax(frames);
      MergedRolled(frames);
    }
  }

  ghost predicate Lacks(frames: seq<Frame>, x: Field) {
    forall f :: f in frames ==> !Carries(frames, f, x)
  }

  ghost predicate Primary(m: Frame, f: Frame) {
    m.src == f.src && m.observedAt == f.observedAt && m.stale == f.stale
  }

  ghost predicate LatestRollover(frames: seq<Frame>, w: Window, r: Option<real>) {
    && (r.None? ==> forall f :: f in frames ==> RolledOf(f, w).None?)
    && (r.Some? ==> exists f :: f in frames && RolledOf(f, w) == r)
    && (r.Some? ==> forall f :: f in frames && RolledOf(f, w).Some? ==> RolledOf(f, w).value <= r.value)
  }

  lemma MergedRolled(frames: seq<Frame>)
    requires Merge(frames).Some?
    ensures var m := Merge(frames).value;
      LatestRollover(frames, Session, m.sessionRolledAt) && LatestRollover(frames, Weekly, m.weeklyRolledAt)
  {
    hide Pick, RolledAt, Latest;
    RolledIsLatest(frames, Session);
    RolledIsLatest(frames, Weekly);
  }

  lemma NothingGiven(frames: seq<Frame>)
    ensures frames == [] ==> Merge(frames) == None && forall x :: Lacks(frames, x)
  {
  }

  /** A known percentage, read since the reset or offered with evidence of one. */
  predicate Believed(f: Frame, w: Window, r: real) {
    Known(PctOf(f, w)) && (f.observedAt >= r || RolledOf(f, w).Some?)
  }

  /** A frame that brings a forgiven reading back: it carries evidence of a reset and yet
      a percentage above 0, it was taken before the latest reset, and nothing believed is
      fresher, or as fresh and before it in the list. */
  ghost predicate BringsBack(frames: seq<Frame>, w: Window, r: real, i: nat) {
    && i < |frames|
    && RolledOf(frames[i], w).Some? && PctOf(frames[i], w) > 0.0 && frames[i].observedAt < r
    && forall j :: 0 <= j < |frames| && Believed(frames[j], w, r) ==>
         frames[j].observedAt < frames[i].observedAt || (i <= j && frames[j].observedAt == frames[i].observedAt)
  }

  /** Exactly when a forgiven reading returns, over all frames whatever. */
  lemma ForgivenReturnsIff(frames: seq<Frame>, w: Window)
    ensures Returns(frames, w) <==>
      RolledAt(frames, w).Some? && exists i: nat :: BringsBack(frames, w, RolledAt(frames, w).value, i)
    ensures Returns(frames, w) ==>
      var shown := Pick(frames, HasPct(RolledAt(frames, w), w)).value;
      Merge(frames).Some? && PctOf(Merge(frames).value, w) == PctOf(shown, w)
  {
    hide Pick, RolledAt, Latest, BringsBack, Merge;
    ShownIsMerged(frames, w);
    var rolled := RolledAt(frames, w);
    var has := HasPct(rolled, w);
    PickWins(frames, has);
    if Returns(frames, w) {
      var i: nat :| Wins(frames, has, i) && frames[i] == Pick(frames, has).value;
      BringsBackWins(frames, w, rolled.value, i);
    }
    if rolled.Some? && exists i: nat :: BringsBack(frames, w, rolled.value, i) {
      var i: nat :| BringsBack(frames, w, rolled.value, i);
      BringsBackWins(frames, w, rolled.value, i);
    }
  }

  lemma ShownIsMerged(frames: seq<Frame>, w: Window)
    ensures var shown := Pick(frames, HasPct(RolledAt(frames, w), w));
      shown.Some? ==> Merge(frames).Some? && PctOf(Merge(frames).value, w) == PctOf(shown.value, w)
  {
    hide RolledAt, Latest;
    PickIsFreshest(frames, HasPct(RolledAt(frames, w), w));
    hide Pick;
  }

  lemma BringsBackWins(frames: seq<Frame>, w: Window, r: real, i: nat)
    ensures BringsBack(frames, w, r, i) <==>
      Wins(frames, HasPct(Some(r), w), i) && PctOf(frames[i], w) > 0.0 && frames[i].observedAt < r
  {
  }

  /** No source offers such a frame, but a merged frame is one: a status line that saw a
      reset, merged with a reading taken since, and the result merged again with one that
      saw a later reset, shows that reading; merged all at once the same three do not. */
  lemma MergedAgainReturns(project: Desk)
    ensures var desktop := Frame(CLAUDE, "desktop", 200.0, 200.0, 40.0, None, UNKNOWN, None, "", false, None, None, None, project);
      var early := StatuslineFrame(Limits((50.0, Some(100.0)), (UNKNOWN, None)), 110.0, 90.0);
      var late := StatuslineFrame(Limits((60.0, Some(300.0)), (UNKNOWN, None)), 310.0, 150.0);
      var once := Merge([desktop, early]);
      && once.Some? && Merge([once.value, late]).Some? && Merge([desktop, early, late]).Some?
      && Merge([once.value, late]).value.sessionPct == 40.0
      && Merge([desktop, early, late]).value.sessionPct == 0.0
  {
    hide Latest;
    var desktop := Frame(CLAUDE, "desktop", 200.0, 200.0, 40.0, None, UNKNOWN, None, "", false, None, None, None, project);
    var early := StatuslineFrame(Limits((50.0, Some(100.0)), (UNKNOWN, None)), 110.0, 90.0);
    var late := StatuslineFrame(Limits((60.0, Some(300.0)), (UNKNOWN, None)), 310.0, 150.0);
    SawReset([desktop, early], early, 100.0);
    MergedPct([desktop, early], Some(100.0), 0);
    var m := Merge([desktop, early]).value;
    SawReset([m, late], late, 300.0);
    MergedPct([m, late], Some(300.0), 0);
    SawReset([desktop, early, late], late, 300.0);
    MergedPct([desktop, early, late], Some(300.0), 2);
  }

  lemma SawReset(frames: seq<Frame>, f: Frame, at: real)
    requires f in frames && f.sessionRolledAt == Some(at)
    requires forall g :: g in frames && g.sessionRolledAt.Some? ==> g.sessionRolledAt.value <= at
    ensures RolledAt(frames, Session) == Some(at)
  {
    hide RolledAt;
    RolledIsLatest(frames, Session);
  }

  /** The merged session percentage, from the latest rollover and the winning frame. */
  lemma MergedPct(frames: seq<Frame>, rolled: Option<real>, i: nat)
    requires RolledAt(frames, Session) == rolled && Wins(frames, HasPct(rolled, Session), i)
    ensures Merge(frames).Some? && Merge(frames).value.sessionPct == frames[i].sessionPct
    ensures Merge(frames).value.sessionRolledAt == rolled && Merge(frames).value.observedAt == frames[i].observedAt
  {
    hide Pick, RolledAt, Latest;
    PickWins(frames, HasPct(rolled, Session));
  }

  // --- which providers the rings show ---

  function Of(frames: seq<Frame>, provider: string): seq<Frame> {
    if frames == [] then []
    else
      var last := frames[|frames| - 1];
      Of(frames[..|frames| - 1], provider) + if last.provider == provider then [last] else []
  }

  /** Preferred before the others, then the fresher reading. */
  predicate Before(a: Frame, b: Frame, preferred: Option<string>) {
    var pa, pb := preferred == Some(a.provider), preferred == Some(b.provider);
    (pa && !pb) || (pa == pb && a.observedAt > b.observedAt)
  }

  function Insert(m: Frame, sorted: seq<Frame>, preferred: Option<string>): seq<Frame> {
    if sorted == [] then [m]
    else if Before(m, sorted[|sorted| - 1], preferred)
    then Insert(m, sorted[..|sorted| - 1], preferred) + [sorted[|sorted| - 1]]
    else sorted + [m]
  }

  /** A stable sort of the merged frames. */
  function Ranked(merged: seq<Frame>, preferred: Option<string>): seq<Frame> {
    if merged == [] then []
    else Insert(merged[|merged| - 1], Ranked(merged[..|merged| - 1], preferred), preferred)
  }

  /** The providers heard from, in the order they first spoke. */
  function Providers(frames: seq<Frame>): seq<string> {
    if frames == [] then []
    else
      var p := frames[|frames| - 1].provider;
      var before := Providers(frames[..|frames| - 1]);
      if p in before then before else before + [p]
  }

  function MergedOf(frames: seq<Frame>, providers: seq<string>): seq<Frame> {
    if providers == [] then []
    else
      var n := |providers| - 1;
      var m := Merge(Of(frames, providers[n]));
      MergedOf(frames, providers[..n]) + if m.Some? then [m.value] else []
  }

  function SelectPair(frames: seq<Frame>, preferred: Option<string>): (Option<Frame>, Option<Frame>) {
    var ranked := Ranked(MergedOf(frames, Providers(frames)), preferred);
    (if |ranked| > 0 then Some(ranked[0]) else None, if |ranked| > 1 then Some(ranked[1]) else None)
  }

  lemma {:induction false} OfIs(frames: seq<Frame>, provider: string)
    ensures forall f :: f in Of(frames, provider) <==> f in frames && f.provider == provider
  {
    if frames != [] {
      OfIs(frames[..|frames| - 1], provider);
      assert frames == frames[..|frames| - 1] + [frames[|frames| - 1]];
    }
  }

  lemma {:induction false} ProvidersAre(frames: seq<Frame>)
    ensures forall f :: f in frames ==> f.provider in Providers(frames)
    ensures forall i, j :: 0 <= i < j < |Providers(frames)| ==> Providers(frames)[i] != Providers(frames)[j]
  {
    if frames != [] {
      ProvidersAre(frames[..|frames| - 1]);
      assert frames == frames[..|frames| - 1] + [frames[|frames| - 1]];
    }
  }

  lemma MergeKeepsProvider(frames: seq<Frame>, provider: string)
    requires Merge(Of(frames, provider)).Some?
    ensures Merge(Of(frames, provider)).value.provider == provider
  {
    OfIs(frames, provider);
    var g := Of(frames, provider);
    assert g[0] in g;
  }

  /** One merged frame for each provider with something to show. */
  lemma {:induction false} MergedOfAre(frames: seq<Frame>, providers: seq<string>)
    requires forall i, j :: 0 <= i < j < |providers| ==> providers[i] != providers[j]
    ensures forall m :: m in MergedOf(frames, providers) <==>
      m.provider in providers && Merge(Of(frames, m.provider)) == Some(m)
    ensures forall i, j :: 0 <= i < j < |MergedOf(frames, providers)| ==>
      MergedOf(frames, providers)[i].provider != MergedOf(frames, providers)[j].provider
  {
    hide Merge, Of;
    if providers != [] {
      var n := |providers| - 1;
      MergedOfAre(frames, providers[..n]);
      assert providers == providers[..n] + [providers[n]];
      var before := MergedOf(frames, providers[..n]);
      var m := Merge(Of(frames, providers[n]));
      if m.Some? {
        MergeKeepsProvider(frames, providers[n]);
        assert m.value !in before;
        forall i | 0 <= i < |before|
          ensures before[i].provider != providers[n]
        {
          assert before[i] in before;
        }
      }
    }
  }

  ghost predicate Sorted(ms: seq<Frame>, preferred: Option<string>) {
    forall i, j :: 0 <= i < j < |ms| ==> !Before(ms[j], ms[i], preferred)
  }

  lemma BeforeIsOrder(preferred: Option<string>)
    ensures forall a, b :: Before(a, b, preferred) ==> !Before(b, a, preferred)
    ensures forall a, b, d :: !Before(a, b, preferred) && !Before(b, d, preferred) ==> !Before(a, d, preferred)
  {
  }

  lemma {:induction false} InsertKeeps(m: Frame, sorted: seq<Frame>, preferred: Option<string>)
    ensures multiset(Insert(m, sorted, preferred)) == multiset(sorted) + multiset{m}
  {
    hide Before;
    if sorted != [] {
      var n := |sorted| - 1;
      InsertKeeps(m, sorted[..n], preferred);
      assert sorted == sorted[..n] + [sorted[n]];
    }
  }

  lemma {:induction false} InsertSorts(m: Frame, sorted: seq<Frame>, preferred: Option<string>)
    requires Sorted(sorted, preferred)
    ensures Sorted(Insert(m, sorted, preferred), preferred)
  {
    BeforeIsOrder(preferred);
    hide Before;
    if sorted != [] && Before(m, sorted[|sorted| - 1], preferred) {
      var n := |sorted| - 1;
      InsertSorts(m, sorted[..n], preferred);
      InsertKeeps(m, sorted[..n], preferred);
      var rest := Insert(m, sorted[..n], preferred);
      forall i | 0 <= i < |rest|
        ensures !Before(sorted[n], rest[i], preferred)
      {
        assert rest[i] in multiset(rest);
      }
    }
  }

  lemma {:induction false} RankedSorts(merged: seq<Frame>, preferred: Option<string>)
    ensures Sorted(Ranked(merged, preferred), preferred)
    ensures multiset(Ranked(merged, preferred)) == multiset(merged)
  {
    hide Insert;
    if merged != [] {
      var n := |merged| - 1;
      RankedSorts(merged[..n], preferred);
      InsertSorts(merged[n], Ranked(merged[..n], preferred), preferred);
      InsertKeeps(merged[n], Ranked(merged[..n], preferred), preferred);
      assert merged == merged[..n] + [merged[n]];
    }
  }

  /** A frame that could be shown: its provider's readings merged. */
  ghost predicate Showable(frames: seq<Frame>, m: Frame) {
    Merge(Of(frames, m.provider)) == Some(m)
  }

  /** Preferred where the other is not, or as preferred and fresher. */
  ghost predicate Outranks(m: Frame, other: Frame, preferred: Option<string>) {
    if preferred == Some(m.provider) then preferred != Some(other.provider) || m.observedAt > other.observedAt
    else preferred != Some(other.provider) && m.observedAt > other.observedAt
  }

  lemma OutranksIsBefore(preferred: Option<string>)
    ensures forall a, b :: Outranks(a, b, preferred) <==> Before(a, b, preferred)
  {
  }

  /** The rings show two different providers' merged frames; nothing showable is
      preferred to, or as preferred as and fresher than, the outer one, nor than the
      inner one but the outer; and a ring is blank only when nothing is left. */
  lemma SelectPairIsBest(frames: seq<Frame>, preferred: Option<string>)
    ensures var (a, b) := SelectPair(frames, preferred);
      && (a.Some? ==> Showable(frames, a.value) && forall m :: Showable(frames, m) ==> !Outranks(m, a.value, preferred))
      && (a.None? ==> b.None? && forall m :: !Showable(frames, m))
      && (b.Some? ==> Showable(frames, b.value) && b.value.provider != a.value.provider)
      && (b.Some? ==> forall m :: Showable(frames, m) && m != a.value ==> !Outranks(m, b.value, preferred))
      && (a.Some? && b.None? ==> forall m :: Showable(frames, m) ==> m == a.value)
  {
    OutranksIsBefore(preferred);
    hide Merge, Of, Insert, Before, Outranks;
    var ps := Providers(frames);
    ProvidersAre(frames);
    MergedOfAre(frames, ps);
    var ms := MergedOf(frames, ps);
    RankedSorts(ms, preferred);
    var ranked := Ranked(ms, preferred);
    forall m
      ensures Showable(frames, m) <==> m in ranked
    {
      ShowableIsHeard(frames, m);
      assert m in ms <==> m in multiset(ms);
      assert m in ranked <==> m in multiset(ranked);
    }
    forall m | m in ranked
      ensures |ranked| > 0 && (m == ranked[0] || !Before(m, ranked[0], preferred))
      ensures m == ranked[0] || (|ranked| > 1 && (m == ranked[1] || !Before(m, ranked[1], preferred)))
    {
      var k :| 0 <= k < |ranked| && ranked[k] == m;
    }
    NotBeforeItself(preferred);
    if |ranked| > 1 {
      TwoProviders(ms, ranked);
    }
  }

  lemma NotBeforeItself(preferred: Option<string>)
    ensures forall m :: !Before(m, m, preferred)
  {
  }

  lemma ShowableIsHeard(frames: seq<Frame>, m: Frame)
    ensures Showable(frames, m) ==> m.provider in Providers(frames)
  {
    ProvidersAre(frames);
    OfIs(frames, m.provider);
    var g := Of(frames, m.provider);
    assert g == [] || g[0] in g;
  }

  lemma TwoProviders(ms: seq<Frame>, ranked: seq<Frame>)
    requires multiset(ms) == multiset(ranked) && |ranked| > 1
    requires forall i, j :: 0 <= i < j < |ms| ==> ms[i].provider != ms[j].provider
    ensures ranked[0].provider != ranked[1].provider
  {
    var a, b := ranked[0], ranked[1];
    assert ranked == [a, b] + ranked[2..];
    assert multiset(ranked)[a] >= if a == b then 2 else 1;
    assert a in multiset(ms) && b in multiset(ms);
    var i :| 0 <= i < |ms| && ms[i] == a;
    var j :| 0 <= j < |ms| && ms[j] == b;
    if a == b {
      OnceOnly(ms, a);
    }
  }

  lemma {:induction false} OnceOnly(ms: seq<Frame>, a: Frame)
    requires forall i, j :: 0 <= i < j < |ms| ==> ms[i].provider != ms[j].provider
    ensures multiset(ms)[a] <= 1
  {
    if ms != [] {
      var n := |ms| - 1;
      OnceOnly(ms[..n], a);
      assert ms == ms[..n] + [ms[n]];
      if ms[n] == a {
        assert a !in ms[..n];
      }
    }
  }
}
