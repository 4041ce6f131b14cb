/** Looking for the board on every port that might be it: how long a search can go
    on, what it has asked before it gives up, and what it may ever reset. */
module PortSearch {
  import opened Wrappers

  /** One opening of a port, on the quick pass or the patient one, and whether
      anything of ours was heard on it. */
  datatype Open = Open(port: string, patient: bool, answered: bool)

  datatype Outcome = Connected(port: string, reset: bool) | Waiting

  predicate MayReset(explicit: bool, port: string, known: Option<string>, patient: bool) {
    explicit || (known == Some(port) && patient)
  }

  /** The remembered port first, where it is attached. */
  function Ordered(cands: seq<string>, known: Option<string>): seq<string> {
    if known.Some? && known.value in cands then [known.value] + Others(cands, known.value) else cands
  }

  function Others(cands: seq<string>, port: string): seq<string> {
    if cands == [] then []
    else Others(cands[..|cands| - 1], port) + if cands[|cands| - 1] != port then [cands[|cands| - 1]] else []
  }

  /** The first candidate not yet asked. */
  function Unasked(cands: seq<string>, asked: set<string>): (r: Option<string>)
    ensures r.Some? ==> r.value in cands && r.value !in asked
    ensures r.None? ==> forall p :: p in cands ==> p in asked
  {
    if cands == [] then None
    else if cands[0] !in asked then Some(cands[0])
    else Unasked(cands[1..], asked)
  }

  function Ports(opens: seq<Open>): seq<string> {
    seq(|opens|, i requires 0 <= i < |opens| => opens[i].port)
  }

  ghost predicate NoRepeats(ports: seq<string>) {
    forall i, j :: 0 <= i < j < |ports| ==> ports[i] != ports[j]
  }

  function SetOf(ports: seq<string>): set<string> {
    set p | p in ports
  }

  lemma {:induction false} SetOfAtMost(ports: seq<string>)
    ensures |SetOf(ports)| <= |ports|
  {
    if ports != [] {
      var n := |ports| - 1;
      SetOfAtMost(ports[..n]);
      assert ports == ports[..n] + [ports[n]];
      assert SetOf(ports) == SetOf(ports[..n]) + {ports[n]};
    }
  }

  lemma {:induction false} SetOfNoRepeats(ports: seq<string>)
    requires NoRepeats(ports)
    ensures |SetOf(ports)| == |ports|
  {
    if ports != [] {
      var n := |ports| - 1;
      SetOfNoRepeats(ports[..n]);
      assert ports == ports[..n] + [ports[n]];
      assert SetOf(ports) == SetOf(ports[..n]) + {ports[n]};
      assert ports[n] !in ports[..n];
    }
  }

  /** Ports asked once each, all of them candidates, are no more than there are. */
  lemma PassAtMost(ports: seq<string>, cands: seq<string>)
    requires NoRepeats(ports) && forall p :: p in ports ==> p in cands
    ensures |ports| <= |cands|
  {
    SetOfNoRepeats(ports);
    SetOfAtMost(cands);
    Smaller(SetOf(ports), SetOf(cands));
  }

  ghost predicate SilentPass(opens: seq<Open>, patient: bool, cands: seq<string>) {
    && NoRepeats(Ports(opens))
    && (forall p :: p in Ports(opens) ==> p in cands)
    && forall i :: 0 <= i < |opens| ==> !opens[i].answered && opens[i].patient == patient
  }

  ghost predicate AskedEverything(opens: seq<Open>, cands: seq<string>) {
    forall p :: p in cands ==> p in Ports(opens)
  }

  /** What a search may end with, given the two passes it made. */
  ghost predicate Justified(out: Outcome, quick: seq<Open>, slow: seq<Open>, cands: seq<string>, known: Option<string>) {
    match out
    case Waiting =>
      && SilentPass(quick, false, cands) && AskedEverything(quick, cands)
      && SilentPass(slow, true, cands) && AskedEverything(slow, cands)
      && (known.Some? ==> known.value !in cands)
    case Connected(port, reset) =>
      var last := if slow == [] then quick else slow;
      && last != [] && last[|last| - 1] == Open(port, slow != [], !reset) && port in cands
      && SilentPass(last[..|last| - 1], slow != [], cands) && port !in Ports(last[..|last| - 1])
      && (slow != [] ==> SilentPass(quick, false, cands) && AskedEverything(quick, cands))
      && (reset ==> slow != [] && known == Some(port))
  }

  /** Opens that heard nothing on ports that may not be reset. */
  ghost predicate PassedBy(opens: seq<Open>, explicit: bool, known: Option<string>) {
    forall i :: 0 <= i < |opens| ==>
      !opens[i].answered && !MayReset(explicit, opens[i].port, known, opens[i].patient)
  }

  /** The policy on resets: a port that answers is never reset, one that may be reset is
      never passed by, and no other port ever is reset. */
  ghost predicate Obeys(out: Outcome, opens: seq<Open>, explicit: bool, known: Option<string>) {
    opens != [] && PassedBy(opens[..|opens| - 1], explicit, known) &&
    var last := opens[|opens| - 1];
    match out
    case Waiting => PassedBy([last], explicit, known)
    case Connected(port, reset) =>
      port == last.port && reset == !last.answered && (reset ==> MayReset(explicit, port, known, last.patient))
  }

  /** What is known of a search once it is over. */
  ghost predicate Searched(out: Outcome, quick: seq<Open>, slow: seq<Open>, explicit: bool,
                           cands: seq<string>, start: string, known: Option<string>) {
    && quick != [] && quick[0].port == start && !quick[0].patient
    && Obeys(out, quick + slow, explicit, known)
    && (explicit ==> |quick| == 1 && slow == [] && out.Connected?)
    && (!explicit ==> Justified(out, quick, slow, cands, known))
    && (slow != [] ==> [slow[0].port] <= Ordered(cands, known))
  }

  lemma PassedMore(opens: seq<Open>, o: Open, explicit: bool, known: Option<string>)
    requires PassedBy(opens, explicit, known)
    requires !o.answered && !MayReset(explicit, o.port, known, o.patient)
    ensures PassedBy(opens + [o], explicit, known)
  {
  }

  lemma ObeysMore(out: Outcome, opens: seq<Open>, o: Open, explicit: bool, known: Option<string>)
    requires PassedBy(opens, explicit, known) && out == Connected(o.port, !o.answered)
    requires !o.answered ==> MayReset(explicit, o.port, known, o.patient)
    ensures Obeys(out, opens + [o], explicit, known)
  {
    assert (opens + [o])[..|opens|] == opens;
  }

  lemma ObeysWaiting(opens: seq<Open>, explicit: bool, known: Option<string>)
    requires PassedBy(opens, explicit, known) && opens != []
    ensures Obeys(Waiting, opens, explicit, known)
  {
  }

  lemma PortsMore(opens: seq<Open>, o: Open)
    ensures Ports(opens + [o]) == Ports(opens) + [o.port]
  {
  }

  lemma SilentMore(opens: seq<Open>, o: Open, patient: bool, cands: seq<string>)
    requires SilentPass(opens, patient, cands) && o.port in cands && o.port !in Ports(opens)
    requires o.patient == patient
    ensures !o.answered ==> SilentPass(opens + [o], patient, cands)
    ensures |opens| + 1 <= |cands|
    ensures SetOf(Ports(opens + [o])) == SetOf(Ports(opens)) + {o.port}
    ensures (opens + [o])[..|opens|] == opens
  {
    PortsMore(opens, o);
    PassAtMost(Ports(opens + [o]), cands);
  }

  lemma InSet(ports: seq<string>)
    ensures forall p :: p in SetOf(ports) <==> p in ports
  {
  }

  /** Each open heard what that port gives at that moment of the search. */
  ghost predicate Heard(opens: seq<Open>, base: nat, answers: (nat, string, bool) -> bool) {
    forall i :: 0 <= i < |opens| ==> opens[i].answered == answers(base + i, opens[i].port, opens[i].patient)
  }

  lemma HeardMore(opens: seq<Open>, base: nat, answers: (nat, string, bool) -> bool, o: Open)
    requires Heard(opens, base, answers) && o.answered == answers(base + |opens|, o.port, o.patient)
    ensures Heard(opens + [o], base, answers)
  {
  }

  /** The pass under way: where it started, whom it asked, and that nobody spoke. */
  ghost predicate Passing(opens: seq<Open>, port: string, first: string, asked: set<string>,
                          patient: bool, cands: seq<string>) {
    && SilentPass(opens, patient, cands)
    && asked == SetOf(Ports(opens))
    && port in cands && port !in asked
    && first == (if opens == [] then port else opens[0].port)
    && |opens| <= |cands|
  }

  lemma PassingOn(opens: seq<Open>, port: string, first: string, asked: set<string>,
                  patient: bool, cands: seq<string>, o: Open)
    requires Passing(opens, port, first, asked, patient, cands) && o.port == port && o.patient == patient
    ensures var more := opens + [o];
      && more[..|opens|] == opens && |more| <= |cands| && more[0].port == first
      && SilentPass(opens, patient, cands) && port !in Ports(opens)
      && (!o.answered ==>
           SilentPass(more, patient, cands)
           && (forall next :: next in cands && next !in asked + {port} ==>
                Passing(more, next, first, asked + {port}, patient, cands))
           && ((forall p :: p in cands ==> p in asked + {port}) ==> AskedEverything(more, cands)))
  {
    InSet(Ports(opens));
    SilentMore(opens, o, patient, cands);
    InSet(Ports(opens + [o]));
  }

  lemma PassingStart(port: string, patient: bool, cands: seq<string>)
    requires port in cands
    ensures Passing([], port, port, {}, patient, cands)
  {
  }

  /** A search under way: the passes so far and the port to be opened next. */
  ghost predicate Searching(quick: seq<Open>, slow: seq<Open>, port: string, asked: set<string>, patient: bool,
                            explicit: bool, cands: seq<string>, start: string, known: Option<string>) {
    && PassedBy(quick + slow, explicit, known)
    && (explicit ==> !patient && quick == [] && port == start)
    && (!patient ==> slow == [] && (quick == [] ==> port == start))
    && (quick != [] ==> quick[0].port == start && !quick[0].patient)
    && (!patient && !explicit ==> Passing(quick, port, start, asked, false, cands))
    && (patient ==>
         && quick != [] && |quick| <= |cands| && SilentPass(quick, false, cands) && AskedEverything(quick, cands)
         && cands != [] && Ordered(cands, known) != []
         && Passing(slow, port, Ordered(cands, known)[0], asked, true, cands)
         && (known.None? || known.value !in asked))
  }

  /** The passes, with one more open. */
  function Quick(quick: seq<Open>, o: Open): seq<Open> {
    if o.patient then quick else quick + [o]
  }

  function Slow(slow: seq<Open>, o: Open): seq<Open> {
    if o.patient then slow + [o] else slow
  }

  lemma SearchingStart(explicit: bool, cands: seq<string>, start: string, known: Option<string>)
    requires explicit || start in cands
    ensures Searching([], [], start, {}, false, explicit, cands, start, known)
  {
    hide Passing;
    if !explicit { PassingStart(start, false, cands); }
  }

  /** The port answered, or may be reset. */
  lemma SearchConnects(quick: seq<Open>, slow: seq<Open>, asked: set<string>, o: Open,
                       explicit: bool, cands: seq<string>, start: string, known: Option<string>)
    requires Searching(quick, slow, o.port, asked, o.patient, explicit, cands, start, known)
    requires o.answered || MayReset(explicit, o.port, known, o.patient)
    ensures var q, s := Quick(quick, o), Slow(slow, o);
      && Searched(Connected(o.port, !o.answered), q, s, explicit, cands, start, known)
      && (!explicit ==> |q| <= |cands| && |s| <= |cands|)
  {
    hide SilentPass, AskedEverything, Ordered, PassedBy, Obeys;
    var q, s := Quick(quick, o), Slow(slow, o);
    assert q + s == (quick + slow) + [o];
    ObeysMore(Connected(o.port, !o.answered), quick + slow, o, explicit, known);
    if o.patient {
      PassingOn(slow, o.port, Ordered(cands, known)[0], asked, true, cands, o);
    } else if !explicit {
      PassingOn(quick, o.port, start, asked, false, cands, o);
    }
  }

  lemma SearchGoesOn(quick: seq<Open>, slow: seq<Open>, asked: set<string>, o: Open, next: string,
                     explicit: bool, cands: seq<string>, start: string, known: Option<string>)
    requires Searching(quick, slow, o.port, asked, o.patient, explicit, cands, start, known)
    requires !o.answered && !MayReset(explicit, o.port, known, o.patient)
    requires next in cands && next !in asked + {o.port}
    ensures Searching(Quick(quick, o), Slow(slow, o), next, asked + {o.port}, o.patient, explicit, cands, start, known)
  {
    hide SilentPass, AskedEverything, Ordered, PassedBy;
    assert Quick(quick, o) + Slow(slow, o) == (quick + slow) + [o];
    PassedMore(quick + slow, o, explicit, known);
    if o.patient {
      PassingOn(slow, o.port, Ordered(cands, known)[0], asked, true, cands, o);
    } else {
      PassingOn(quick, o.port, start, asked, false, cands, o);
    }
  }

  /** Everything was asked quickly; once more, patiently. */
  lemma SearchGrowsPatient(quick: seq<Open>, asked: set<string>, o: Open,
                           explicit: bool, cands: seq<string>, start: string, known: Option<string>)
    requires Searching(quick, [], o.port, asked, false, explicit, cands, start, known) && !o.patient
    requires !o.answered && !MayReset(explicit, o.port, known, false)
    requires forall p :: p in cands ==> p in asked + {o.port}
    ensures cands != [] && Ordered(cands, known) != []
    ensures Searching(quick + [o], [], Ordered(cands, known)[0], {}, true, explicit, cands, start, known)
  {
    hide SilentPass, AskedEverything, Ordered, PassedBy;
    assert (quick + [o]) + [] == (quick + []) + [o];
    PassedMore(quick + [], o, explicit, known);
    PassingOn(quick, o.port, start, asked, false, cands, o);
    OrderedFirst(cands, known);
    PassingStart(Ordered(cands, known)[0], true, cands);
  }

  lemma SearchGivesUp(quick: seq<Open>, slow: seq<Open>, asked: set<string>, o: Open,
                      explicit: bool, cands: seq<string>, start: string, known: Option<string>)
    requires Searching(quick, slow, o.port, asked, true, explicit, cands, start, known) && o.patient
    requires !o.answered && !MayReset(explicit, o.port, known, true)
    requires forall p :: p in cands ==> p in asked + {o.port}
    ensures Searched(Waiting, quick, slow + [o], explicit, cands, start, known)
    ensures |quick| <= |cands| && |slow + [o]| <= |cands|
  {
    hide SilentPass, AskedEverything, Ordered, PassedBy, Obeys;
    assert quick + (slow + [o]) == (quick + slow) + [o];
    PassedMore(quick + slow, o, explicit, known);
    ObeysWaiting(quick + (slow + [o]), explicit, known);
    PassingOn(slow, o.port, Ordered(cands, known)[0], asked, true, cands, o);
  }

  lemma PortCounts(quick: seq<Open>, slow: seq<Open>, port: string, asked: set<string>, patient: bool,
                   explicit: bool, cands: seq<string>, start: string, known: Option<string>)
    requires Searching(quick, slow, port, asked, patient, explicit, cands, start, known) && !explicit
    ensures SetOf(cands) - (asked + {port}) < SetOf(cands) - asked
  {
    hide PassedBy, SilentPass, AskedEverything;
    InSet(cands);
    assert port in SetOf(cands) - asked;
  }

  /** One search of a layout that holds still, every open succeeding. It ends, within
      twice as many opens as there are candidates; it gives up only after each was asked
      once quickly and once patiently and stayed silent; and it keeps to the policy. */
  method Search(explicit: bool, cands: seq<string>, start: string, known: Option<string>,
                answers: (nat, string, bool) -> bool)
    returns (out: Outcome, quick: seq<Open>, slow: seq<Open>)
    requires explicit || start in cands
    ensures Searched(out, quick, slow, explicit, cands, start, known)
    ensures Heard(quick, 0, answers) && Heard(slow, |quick|, answers)
    ensures !explicit ==> |quick| <= |cands| && |slow| <= |cands|
  {
    hide Ordered, SetOf, Unasked, Heard, Searching, Searched;
    SearchingStart(explicit, cands, start, known);
    HeardNone(answers);
    var port := start;
    var asked: set<string> := {};
    var patient := false;
    quick, slow := [], [];
    while true
      invariant !patient ==> slow == []
      invariant Heard(quick, 0, answers) && Heard(slow, |quick|, answers)
      invariant Searching(quick, slow, port, asked, patient, explicit, cands, start, known)
      decreases !patient, SetOf(cands) - asked
    {
      var answered := answers(|quick| + |slow|, port, patient);
      var o := Open(port, patient, answered);
      ghost var q, s := quick, slow;
      HeardMore(if patient then slow else quick, if patient then |quick| else 0, answers, o);
      if patient { slow := slow + [o]; } else {
        quick := quick + [o];
        HeardNone(answers);
      }
      if answered {
        SearchConnects(q, s, asked, o, explicit, cands, start, known);
        return Connected(port, false), quick, slow;
      } else if MayReset(explicit, port, known, patient) {
        SearchConnects(q, s, asked, o, explicit, cands, start, known);
        return Connected(port, true), quick, slow;
      }
      var nxt := Unasked(cands, asked + {port});
      if nxt.Some? {
        SearchGoesOn(q, s, asked, o, nxt.value, explicit, cands, start, known);
        PortCounts(q, s, port, asked, patient, explicit, cands, start, known);
        asked, port := asked + {port}, nxt.value;
      } else if !patient {
        SearchGrowsPatient(q, asked, o, explicit, cands, start, known);
        patient, asked := true, {};
        port := Ordered(cands, known)[0];
      } else {
        SearchGivesUp(q, s, asked, o, explicit, cands, start, known);
        return Waiting, quick, slow;
      }
    }
  }

  lemma HeardNone(answers: (nat, string, bool) -> bool)
    ensures forall base: nat {:trigger Heard([], base, answers)} :: Heard([], base, answers)
  {
  }

  lemma OrderedFirst(cands: seq<string>, known: Option<string>)
    requires cands != []
    ensures Ordered(cands, known) != [] && Ordered(cands, known)[0] in cands
    ensures known.Some? && known.value in cands ==> Ordered(cands, known)[0] == known.value
  {
  }

  /** The others come behind the remembered port, in the order they were in, each as
      often as it was there. */
  lemma {:induction false} OthersKeepOrder(cands: seq<string>, port: string)
    ensures forall p :: multiset(Others(cands, port))[p] == if p == port then 0 else multiset(cands)[p]
    ensures forall i, j :: 0 <= i < j < |cands| && cands[i] != port && cands[j] != port ==>
      Follows(Others(cands, port), cands[i], cands[j])
  {
    if cands != [] {
      var n := |cands| - 1;
      var before := Others(cands[..n], port);
      OthersKeepOrder(cands[..n], port);
      assert cands == cands[..n] + [cands[n]];
      forall i, j | 0 <= i < j < |cands| && cands[i] != port && cands[j] != port
        ensures Follows(Others(cands, port), cands[i], cands[j])
      {
        if j < n {
          assert cands[..n][i] == cands[i] && cands[..n][j] == cands[j];
          FollowsStill(before, [cands[n]], cands[i], cands[j]);
        } else {
          assert cands[i] in cands[..n];
          assert multiset(before)[cands[i]] == multiset(cands[..n])[cands[i]];
          assert cands[i] in multiset(before);
          FollowsLast(before, cands[i], cands[n]);
        }
      }
    }
  }

  /** Somewhere `b` stands behind `a`. */
  ghost predicate Follows(s: seq<string>, a: string, b: string) {
    exists i, j :: 0 <= i < j < |s| && s[i] == a && s[j] == b
  }

  lemma FollowsStill(s: seq<string>, more: seq<string>, a: string, b: string)
    requires Follows(s, a, b)
    ensures Follows(s + more, a, b) && Follows(s + [], a, b)
  {
    var i, j :| 0 <= i < j < |s| && s[i] == a && s[j] == b;
    assert (s + more)[i] == a && (s + more)[j] == b;
    assert (s + [])[i] == a && (s + [])[j] == b;
  }

  lemma FollowsLast(s: seq<string>, a: string, b: string)
    requires a in s
    ensures Follows(s + [b], a, b)
  {
    var i :| 0 <= i < |s| && s[i] == a;
    assert (s + [b])[i] == a && (s + [b])[|s|] == b;
  }

  // --- between searches ---

  /** What is plugged in, as far as anyone can see without opening it. */
  datatype Layout = Layout(cands: seq<string>, devices: set<string>)

  /** The port to try, with the layout written off and the patience kept. */
  function NextPort(searched: Option<set<string>>, patient: bool, known: Option<string>, now: Layout)
    : (Option<string>, Option<set<string>>, bool)
  {
    if searched == Some(now.devices) then (None, searched, patient)
    else
      var kept := patient && searched.None?;
      if now.cands == [] then (None, Some(now.devices), kept)
      else (Some(Ordered(now.cands, known)[0]), None, kept)
  }

  /** The devices seen at the look before the `i`th. */
  function Prev(searched: set<string>, looks: seq<Layout>, i: nat): set<string>
    requires i <= |looks|
  {
    if i == 0 then searched else looks[i - 1].devices
  }

  /** Waiting for a board: nothing is current while the layout is the one written off,
      or while nothing attached could be a board; the first other look is a port to
      try, quickly, under the new layout. */
  method Wait(searched: set<string>, known: Option<string>, looks: seq<Layout>)
    returns (k: nat, port: Option<string>, patient: bool)
    ensures k <= |looks| && (port.None? <==> k == |looks|) && !patient
    ensures port.Some? ==> looks[k].cands != [] && port.value == Ordered(looks[k].cands, known)[0]
    ensures forall i :: 0 <= i < k ==>
      looks[i].cands == [] || looks[i].devices == Prev(searched, looks, i)
    ensures port.Some? ==> looks[k].devices != Prev(searched, looks, k)
  {
    hide Ordered;
    k, port, patient := 0, None, false;
    var off: Option<set<string>> := Some(searched);
    while k < |looks|
      invariant k <= |looks| && port.None? && !patient
      invariant off == Some(Prev(searched, looks, k))
      invariant forall i :: 0 <= i < k ==>
        looks[i].cands == [] || looks[i].devices == Prev(searched, looks, i)
    {
      var r := NextPort(off, patient, known, looks[k]);
      port, off, patient := r.0, r.1, r.2;
      if port.Some? { return; }
      assert off == Some(looks[k].devices);
      assert looks[k].cands == [] || looks[k].devices == Prev(searched, looks, k);
      k := k + 1;
    }
  }

  /** Each open heard what that port says, quickly or patiently asked. */
  ghost predicate Steady(opens: seq<Open>, heard: (string, bool) -> bool) {
    forall i :: 0 <= i < |opens| ==> opens[i].answered == heard(opens[i].port, opens[i].patient)
  }

  ghost predicate AllSilent(cands: seq<string>, patient: bool, heard: (string, bool) -> bool) {
    forall p :: p in cands ==> !heard(p, patient)
  }

  /** Among ports that do not change their minds, a search resets exactly the silent
      port of the operator, or exactly the remembered one, when it is attached, nothing
      answered quickly and it did not answer patiently; it waits exactly when the
      remembered port is not attached and nothing answered at all. */
  lemma ResetIff(out: Outcome, quick: seq<Open>, slow: seq<Open>, explicit: bool,
                 cands: seq<string>, start: string, known: Option<string>, heard: (string, bool) -> bool)
    requires Searched(out, quick, slow, explicit, cands, start, known)
    requires explicit || start in cands
    requires Steady(quick, heard) && Steady(slow, heard)
    ensures explicit ==> out == Connected(start, !heard(start, false))
    ensures !explicit ==>
      var attached := known.Some? && known.value in cands;
      && (out.Connected? && out.reset <==>
           attached && AllSilent(cands, false, heard) && !heard(known.value, true))
      && (out.Connected? && out.reset ==> out.port == known.value)
      && (out.Waiting? <==> !attached && AllSilent(cands, false, heard) && AllSilent(cands, true, heard))
  {
    hide Ordered, Obeys, Justified;
    if explicit {
      ExplicitAnswer(out, quick, known);
    } else if slow == [] {
      QuickAnswer(out, quick, cands, start, known);
    } else {
      SlowAnswer(out, quick, slow, cands, known);
      AllAsked(quick, false, cands, heard);
      if known.Some? && known.value in cands { AttachedFirst(out, quick, slow, cands, start, known); }
      if out.Waiting? { AllAsked(slow, true, cands, heard) by { WaitedOn(out, quick, slow, cands, known); } }
    }
  }

  lemma ExplicitAnswer(out: Outcome, quick: seq<Open>, known: Option<string>)
    requires |quick| == 1 && out.Connected? && Obeys(out, quick + [], true, known)
    ensures out == Connected(quick[0].port, !quick[0].answered)
  {
  }

  lemma QuickAnswer(out: Outcome, quick: seq<Open>, cands: seq<string>, start: string, known: Option<string>)
    requires Justified(out, quick, [], cands, known) && start in cands
    ensures out.Connected? && !out.reset && out.port in cands
    ensures quick != [] && quick[|quick| - 1] == Open(out.port, false, true)
  {
    assert Ports([]) == [];
  }

  lemma SlowAnswer(out: Outcome, quick: seq<Open>, slow: seq<Open>, cands: seq<string>, known: Option<string>)
    requires Justified(out, quick, slow, cands, known) && slow != []
    ensures SilentPass(quick, false, cands) && AskedEverything(quick, cands)
    ensures out.Connected? ==> slow[|slow| - 1] == Open(out.port, true, !out.reset) && out.port in cands
    ensures out.Connected? && out.reset ==> known == Some(out.port)
    ensures out.Waiting? ==> known.Some? ==> known.value !in cands
  {
    hide SilentPass, AskedEverything;
  }

  lemma WaitedOn(out: Outcome, quick: seq<Open>, slow: seq<Open>, cands: seq<string>, known: Option<string>)
    requires Justified(out, quick, slow, cands, known) && out.Waiting?
    ensures SilentPass(slow, true, cands) && AskedEverything(slow, cands)
  {
    hide SilentPass, AskedEverything;
  }

  lemma AllAsked(opens: seq<Open>, patient: bool, cands: seq<string>, heard: (string, bool) -> bool)
    requires SilentPass(opens, patient, cands) && AskedEverything(opens, cands) && Steady(opens, heard)
    ensures AllSilent(cands, patient, heard)
  {
    forall p | p in cands
      ensures !heard(p, patient)
    {
      assert p in Ports(opens);
      var i :| 0 <= i < |opens| && Ports(opens)[i] == p;
      assert !opens[i].answered && opens[i].port == p;
    }
  }

  /** The remembered port is the first of the patient pass, and settles it. */
  lemma AttachedFirst(out: Outcome, quick: seq<Open>, slow: seq<Open>, cands: seq<string>, start: string,
                      known: Option<string>)
    requires Searched(out, quick, slow, false, cands, start, known)
    requires slow != [] && known.Some? && known.value in cands
    ensures |slow| == 1 && out.Connected? && slow[0].port == known.value == out.port
  {
    hide Ordered, SilentPass, AskedEverything;
    OrderedFirst(cands, known);
    assert slow[0].patient by { PatientPass(out, quick, slow, cands, known); }
    if |slow| > 1 {
      FirstPassedBy(quick, slow, false, known);
    }
  }

  lemma FirstPassedBy(quick: seq<Open>, slow: seq<Open>, explicit: bool, known: Option<string>)
    requires |slow| > 1 && PassedBy((quick + slow)[..|quick + slow| - 1], explicit, known)
    ensures !MayReset(explicit, slow[0].port, known, slow[0].patient)
  {
    assert (quick + slow)[..|quick + slow| - 1][|quick|] == slow[0];
  }

  lemma PatientPass(out: Outcome, quick: seq<Open>, slow: seq<Open>, cands: seq<string>, known: Option<string>)
    requires Justified(out, quick, slow, cands, known) && slow != []
    ensures slow[0].patient
  {
    hide AskedEverything;
  }

  /** However the ports answer, with the remembered port attached a search connects;
      a reset is of that port, on the first open of the patient pass. */
  lemma RememberedIsRecovered(out: Outcome, quick: seq<Open>, slow: seq<Open>, cands: seq<string>, start: string,
                              known: Option<string>)
    requires Searched(out, quick, slow, false, cands, start, known) && known.Some? && known.value in cands
    ensures out.Connected?
    ensures out.reset ==> out.port == known.value && |slow| == 1
  {
    hide Ordered, SilentPass, AskedEverything, Obeys;
    if slow != [] { AttachedFirst(out, quick, slow, cands, start, known); }
  }
}
