/** One slot of a settings file we share with its owner: installing our status line
    there, taking it out again, and putting it back when something removed it. */
module Statusline {
  import opened Lines
  import opened Wrappers

  function RStrip(s: string): (r: string)
    ensures r <= s && (r != [] ==> !Space(r[|r| - 1]))
  {
    if s != [] && Space(s[|s| - 1]) then RStrip(s[..|s| - 1]) else s
  }

  function Strip(s: string): string {
    RStrip(LStrip(s))
  }

  /** The value of the `statusLine` key: absent, an object with or without a command
      and with its other members, or something that is not an object. */
  datatype Status = Absent | Obj(command: Option<string>, rest: map<string, string>) | Junk(text: string)

  datatype Settings = Unreadable | Settings(status: Status, others: map<string, string>)

  /** The settings file, the marker and the chain file. */
  datatype Home = Home(settings: Settings, marker: Option<string>, chain: Option<string>)

  /** The command a shim path is installed as. */
  datatype Config = Config(shim: string -> string)

  ghost predicate Sane(c: Config) {
    forall path :: c.shim(path) != "" && Strip(c.shim(path)) == c.shim(path)
  }

  ghost predicate Ours(c: Config, command: string) {
    exists path :: c.shim(path) == command
  }

  function Written(command: string): Status {
    Obj(Some(command), map["type" := "command"])
  }

  function Current(s: Settings): string {
    if s.Settings? && s.status.Obj? && s.status.command.Some? then s.status.command.value else ""
  }

  function ReadFile(f: Option<string>): string {
    if f.Some? then Strip(f.value) else ""
  }

  predicate IsOurs(current: string, marker: string, expected: Option<string>) {
    current != "" && (current == marker || expected == Some(current))
  }

  datatype Told = Refused | Chained(command: string) | NothingChained | Failed

  /** The command of somebody else's that an install would displace. */
  function Displaceable(c: Config, h: Home, path: string): Option<string> {
    var previous := Current(h.settings);
    if previous != "" && !IsOurs(previous, ReadFile(h.marker), Some(c.shim(path))) then Some(previous) else None
  }

  /** Chain, settings, marker, in that order; where the settings cannot be saved the
      chain is written all the same. */
  function Install(c: Config, h: Home, path: string, saved: bool): (Home, Told) {
    if h.settings.Unreadable? then (h, Refused)
    else
      var command := c.shim(path);
      var foreign := Displaceable(c, h, path);
      var chain :=
        if foreign.Some? then Some(foreign.value + "\n")
        else if Current(h.settings) == "" && ReadFile(h.marker) == "" then None
        else h.chain;
      if !saved then (h.(chain := chain), Failed)
      else
        (Home(h.settings.(status := Written(command)), Some(command + "\n"), chain),
         if foreign.Some? then Chained(foreign.value) else NothingChained)
  }

  function Uninstall(h: Home, expected: Option<string>): Home {
    var current := Current(h.settings);
    if h.settings.Unreadable? || !IsOurs(current, ReadFile(h.marker), expected) then h
    else
      var previous := ReadFile(h.chain);
      Home(h.settings.(status := if previous != "" then Written(previous) else Absent), None, None)
  }

  function ExpectedAt(c: Config, path: Option<string>): Option<string> {
    if path.Some? then Some(c.shim(path.value)) else None
  }

  datatype Drift = Still | Removed | Moved | Replaced(command: string) | NotRestored

  /** What the watchdog finds wrong, if anything. */
  function Drifted(c: Config, h: Home, path: string): Drift {
    var current := Current(h.settings);
    if ReadFile(h.marker) == "" || h.settings.Unreadable? || current == c.shim(path) then Still
    else if current == "" then Removed
    else if IsOurs(current, ReadFile(h.marker), Some(c.shim(path))) then Moved
    else Replaced(current)
  }

  /** Switched off, the watchdog sees nothing; a repair that fails is reported too. */
  function DriftCheck(c: Config, h: Home, path: string, disabled: bool, saved: bool): (Home, Drift) {
    var what := Drifted(c, h, path);
    if disabled || what.Still? then (h, Still)
    else (Install(c, h, path, saved).0, if saved then what else NotRestored)
  }

  // --- every run ---

  datatype Event =
    | Installs(path: string, saved: bool)
    | Uninstalls(at: Option<string>, saved: bool)
    | Checks(path: string, disabled: bool, saved: bool)
    | UserSaves(settings: Settings)

  /** A state, and the last foreign command an install set out to displace since the
      marker was first written. */
  datatype Tracked = Tracked(home: Home, displaced: Option<string>)

  function Displacing(c: Config, t: Tracked, path: string): Option<string> {
    var foreign := Displaceable(c, t.home, path);
    if t.home.settings.Unreadable? then t.displaced
    else if foreign.Some? then foreign
    else if ReadFile(t.home.marker) == "" then None
    else t.displaced
  }

  function Next(c: Config, t: Tracked, e: Event): Tracked {
    match e
    case Installs(path, saved) => Tracked(Install(c, t.home, path, saved).0, Displacing(c, t, path))
    case Uninstalls(at, saved) => if saved then t.(home := Uninstall(t.home, ExpectedAt(c, at))) else t
    case Checks(path, disabled, saved) =>
      if disabled || Drifted(c, t.home, path).Still? then t
      else Tracked(DriftCheck(c, t.home, path, disabled, saved).0, Displacing(c, t, path))
    case UserSaves(settings) => t.(home := t.home.(settings := settings))
  }

  /** What an owner's own command is: not one of ours, however it is padded. */
  ghost predicate Foreign(c: Config, command: string) {
    !Ours(c, Strip(command)) && !Ours(c, command)
  }

  /** The owner may save anything but a command of ours that is not the one now
      recorded, such as one out of an old backup. */
  ghost predicate Allowed(c: Config, t: Tracked, e: Event) {
    e.UserSaves? ==>
      var cmd := Current(e.settings);
      cmd == "" || Foreign(c, cmd) || cmd == ReadFile(t.home.marker)
  }

  ghost predicate Inv(c: Config, t: Tracked) {
    var current, marker, chain := Current(t.home.settings), ReadFile(t.home.marker), ReadFile(t.home.chain);
    && (marker == "" || Ours(c, marker))
    && (current == "" || current == marker || Foreign(c, current))
    && !Ours(c, chain)
    && (marker != "" ==> chain == if t.displaced.Some? then Strip(t.displaced.value) else "")
  }

  lemma {:induction false} StripNewline(s: string)
    ensures Strip(s + "\n") == Strip(s)
  {
    LStripAppend(s, "\n");
    if LStrip(s) != [] {
      assert (LStrip(s) + "\n")[..|LStrip(s)|] == LStrip(s);
    }
  }

  lemma {:induction false} LStripAppend(s: string, x: string)
    ensures LStrip(s) != [] ==> LStrip(s + x) == LStrip(s) + x
    ensures LStrip(s) == [] ==> LStrip(s + x) == LStrip(x)
  {
    if s == [] {
      assert s + x == x;
    } else if Space(s[0]) {
      LStripAppend(s[1..], x);
      assert (s + x)[1..] == s[1..] + x;
    }
  }

  /** The test for our own command is exact in every reachable state. */
  lemma IsOursIsExact(c: Config, t: Tracked, path: Option<string>)
    requires Sane(c) && Inv(c, t)
    ensures IsOurs(Current(t.home.settings), ReadFile(t.home.marker), ExpectedAt(c, path)) <==>
            Ours(c, Current(t.home.settings))
  {
    hide Strip;
    if path.Some? {
      assert Ours(c, c.shim(path.value));
    }
  }

  lemma InstallKeeps(c: Config, t: Tracked, path: string, saved: bool)
    requires Sane(c) && Inv(c, t)
    ensures Inv(c, Tracked(Install(c, t.home, path, saved).0, Displacing(c, t, path)))
  {
    hide Strip;
    var command := c.shim(path);
    assert Ours(c, command) && Strip(command) == command;
    StripNewline(command);
    var previous := Current(t.home.settings);
    StripNewline(previous);
  }

  lemma UninstallKeeps(c: Config, t: Tracked, path: Option<string>)
    requires Sane(c) && Inv(c, t)
    ensures Inv(c, t.(home := Uninstall(t.home, ExpectedAt(c, path))))
  {
    if t.home.chain.Some? {
      StripTwice(t.home.chain.value);
    }
    hide Strip;
  }

  lemma {:induction false} StripTwice(s: string)
    ensures Strip(Strip(s)) == Strip(s)
  {
    var l := LStrip(s);
    var r := RStrip(l);
    if r != [] {
      assert r[0] == l[0];
    }
  }

  lemma NextKeeps(c: Config, t: Tracked, e: Event)
    requires Sane(c) && Inv(c, t) && Allowed(c, t, e)
    ensures Inv(c, Next(c, t, e))
  {
    hide Strip, Install, Uninstall, Displacing, Foreign, Ours;
    match e {
      case Installs(path, saved) => InstallKeeps(c, t, path, saved);
      case Uninstalls(at, _) => UninstallKeeps(c, t, at);
      case Checks(path, _, saved) => InstallKeeps(c, t, path, saved);
      case UserSaves(settings) =>
    }
  }

  ghost predicate Happens(c: Config, t: Tracked, events: seq<Event>)
    decreases |events|
  {
    events != [] ==> Allowed(c, t, events[0]) && Happens(c, Next(c, t, events[0]), events[1..])
  }

  function Run(c: Config, t: Tracked, events: seq<Event>): Tracked
    decreases |events|
  {
    if events == [] then t else Run(c, Next(c, t, events[0]), events[1..])
  }

  lemma {:induction false} RunKeeps(c: Config, t: Tracked, events: seq<Event>)
    requires Sane(c) && Inv(c, t) && Happens(c, t, events)
    ensures Inv(c, Run(c, t, events))
    decreases |events|
  {
    hide Inv, Next, Allowed;
    if events != [] {
      NextKeeps(c, t, events[0]);
      RunKeeps(c, Next(c, t, events[0]), events[1..]);
    }
  }

  /** A machine we were never on, whatever chain file somebody left there. */
  ghost predicate Untouched(c: Config, h: Home) {
    h.marker == None && !Ours(c, ReadFile(h.chain)) && (Current(h.settings) == "" || Foreign(c, Current(h.settings)))
  }

  /** After any run: uninstalling ours puts back the last foreign command an install
      set out to displace, or removes the key when none was; what is not ours is left alone;
      and no other key ever changes. */
  lemma NothingIsLost(c: Config, h: Home, events: seq<Event>, path: Option<string>)
    requires Sane(c) && Untouched(c, h) && Happens(c, Tracked(h, None), events)
    ensures var t := Run(c, Tracked(h, None), events); var d := Uninstall(t.home, ExpectedAt(c, path));
      && !Ours(c, ReadFile(t.home.chain))
      && (Ours(c, Current(t.home.settings)) ==> Current(t.home.settings) == ReadFile(t.home.marker))
      && (Ours(c, Current(t.home.settings)) ==>
           d.marker == None && d.chain == None && d.settings.Settings? &&
           d.settings == t.home.settings.(status :=
             if t.displaced.Some? && Strip(t.displaced.value) != "" then Written(Strip(t.displaced.value)) else Absent))
      && (!Ours(c, Current(t.home.settings)) ==> d == t.home)
  {
    hide Strip, Happens, Run, Foreign;
    RunKeeps(c, Tracked(h, None), events);
    var t := Run(c, Tracked(h, None), events);
    IsOursIsExact(c, t, path);
    ForeignIsNotOurs(c, Current(t.home.settings));
  }

  lemma ForeignIsNotOurs(c: Config, command: string)
    ensures Foreign(c, command) ==> !Ours(c, command)
  {
  }

  /** No key but ours is ever touched. */
  lemma OthersStay(c: Config, t: Tracked, e: Event)
    requires !e.UserSaves?
    ensures var s, r := t.home.settings, Next(c, t, e).home.settings;
      r.Unreadable? == s.Unreadable? && (s.Settings? ==> r.others == s.others)
  {
    hide Strip;
  }

  /** Install then uninstall gives back the very file it started from exactly when the
      key was absent or held nothing but a trimmed command: an object with any other
      member, such as padding, comes back without it. */
  lemma RoundTripIff(c: Config, h: Home, path: string)
    requires Sane(c) && h.settings.Settings? && h.marker == None
    requires Current(h.settings) == "" || Foreign(c, Current(h.settings))
    ensures var d := Uninstall(Install(c, h, path, true).0, ExpectedAt(c, Some(path)));
      d.settings == h.settings <==>
      h.settings.status.Absent? ||
      (Current(h.settings) != "" && Strip(Current(h.settings)) == Current(h.settings)
       && h.settings.status.rest == map["type" := "command"])
  {
    hide Strip;
    var command := c.shim(path);
    assert Ours(c, command) && Strip(command) == command;
    StripNewline(command);
    StripNewline(Current(h.settings));
  }

  /** What an install writes and says. A file that cannot be read is left alone. A
      command in the slot that is neither recorded nor what would be written now goes to
      the chain; the chain is dropped only where nothing was in the slot and nothing
      recorded; the slot and the marker get today's command, unless saving fails. */
  lemma InstallWrites(c: Config, h: Home, path: string, saved: bool)
    ensures var (d, told) := Install(c, h, path, saved);
      var was := Current(h.settings);
      var foreign := was != "" && was != ReadFile(h.marker) && was != c.shim(path);
      && (h.settings.Unreadable? ==> d == h && told == Refused)
      && (h.settings.Settings? ==>
           && d.chain == (if foreign then Some(was + "\n") else if was == "" && ReadFile(h.marker) == "" then None else h.chain)
           && (saved ==> d.settings == Settings(Obj(Some(c.shim(path)), map["type" := "command"]), h.settings.others))
           && (saved ==> d.marker == Some(c.shim(path) + "\n"))
           && (!saved ==> d.settings == h.settings && d.marker == h.marker)
           && told == (if !saved then Failed else if foreign then Chained(was) else NothingChained))
  {
    hide Strip;
  }

  /** What an uninstall does: to a command that is recorded, or is what an install at the
      path it was told would write, and to nothing else. */
  lemma UninstallWrites(c: Config, h: Home, path: Option<string>)
    ensures var d := Uninstall(h, ExpectedAt(c, path));
      var was := Current(h.settings);
      var ours := was != "" && (was == ReadFile(h.marker) || (path.Some? && was == c.shim(path.value)));
      if !ours then d == h
      else
        && d.marker == None && d.chain == None
        && d.settings == Settings(if ReadFile(h.chain) == "" then Absent
                                  else Obj(Some(ReadFile(h.chain)), map["type" := "command"]), h.settings.others)
  {
    hide Strip;
  }

  /** Installing again, at the same path or another, keeps what was displaced. */
  lemma ReinstallKeepsDisplaced(c: Config, t: Tracked, path: string, again: string)
    requires Sane(c) && Inv(c, t) && t.home.settings.Settings?
    ensures var once := Next(c, t, Installs(path, true)); var twice := Next(c, once, Installs(again, true));
      && twice.displaced == once.displaced && twice.home.chain == once.home.chain
      && Current(twice.home.settings) == c.shim(again)
      && (again == path ==> twice == once)
  {
    hide Strip;
    var command := c.shim(path);
    assert Strip(command) == command;
    StripNewline(command);
  }

  /** After an uninstall the watchdog does nothing, whatever the owner does next,
      exactly when the uninstall found a command of ours or no marker was there. One
      run over a key the owner had already cleared leaves the marker, and the next
      check puts the hook back. */
  lemma UninstallIsFinalIff(c: Config, t: Tracked, path: Option<string>)
    requires Sane(c) && Inv(c, t) && t.home.settings.Settings?
    ensures var h := Uninstall(t.home, ExpectedAt(c, path));
      (forall s: Settings, p :: Drifted(c, h.(settings := s), p).Still?) <==>
      Ours(c, Current(t.home.settings)) || ReadFile(t.home.marker) == ""
  {
    hide Strip;
    IsOursIsExact(c, t, path);
    var h := Uninstall(t.home, ExpectedAt(c, path));
    if ReadFile(h.marker) != "" {
      var cleared := h.(settings := Settings(Absent, map[]));
      assert c.shim("") != "";
      assert Drifted(c, cleared, "") == Removed;
      assert !Drifted(c, h.(settings := Settings(Absent, map[])), "").Still?;
    }
  }

  /** Nothing for the watchdog to do: switched off, never installed or uninstalled, a
      file it cannot read, or our command at today's path in the slot. */
  ghost predicate HandsOff(c: Config, h: Home, path: string, disabled: bool) {
    disabled || ReadFile(h.marker) == "" || h.settings.Unreadable? || Current(h.settings) == c.shim(path)
  }

  /** What one check does and says. Hands off, nothing; otherwise the slot holds our
      command at today's path afterwards if it could be saved, recorded in the marker,
      and the report is what was in the slot: nothing, our command at another path, or
      somebody else's, which the chain then holds. */
  lemma CheckRepairs(c: Config, h: Home, path: string, disabled: bool, saved: bool)
    requires Sane(c)
    ensures var (d, what) := DriftCheck(c, h, path, disabled, saved);
      var was, marker := Current(h.settings), ReadFile(h.marker);
      && (HandsOff(c, h, path, disabled) ==> d == h)
      && (what == Still <==> HandsOff(c, h, path, disabled))
      && (what == NotRestored <==> !HandsOff(c, h, path, disabled) && !saved)
      && (what == Removed <==> !HandsOff(c, h, path, disabled) && saved && was == "")
      && (what == Moved <==> !HandsOff(c, h, path, disabled) && saved && was != "" && was == marker)
      && (what == Replaced(was) <==> !HandsOff(c, h, path, disabled) && saved && was != "" && was != marker)
      && (what.Replaced? ==> what.command == was)
      && (!HandsOff(c, h, path, disabled) && saved ==>
           d.settings.Settings? && Current(d.settings) == c.shim(path) && ReadFile(d.marker) == c.shim(path))
      && (what.Removed? || what.Moved? ==> d.chain == h.chain)
      && (what.Replaced? ==> ReadFile(d.chain) == Strip(was))
      && (what.NotRestored? ==> d.settings == h.settings && d.marker == h.marker)
  {
    hide Strip;
    StripNewline(c.shim(path));
    StripNewline(Current(h.settings));
  }

  /** When it is due and has not given up, a tick is such a check; it is due again an
      interval later, and it gives up with the third time it found something. */
  lemma TickChecks(c: Config, interval: int, w: Watch, h: Home, path: string, now: int, disabled: bool, saved: bool)
    ensures var (v, d, what) := Tick(c, interval, w, h, path, now, disabled, saved);
      var due := now >= w.next;
      && (due && !w.gaveUp ==> (d, what) == DriftCheck(c, h, path, disabled, saved))
      && (!due || w.gaveUp ==> d == h && what == Still && v.count == w.count && v.gaveUp == w.gaveUp)
      && v.next == (if due then now + interval else w.next)
      && (due && !w.gaveUp ==> v.count == w.count + (if what == Still then 0 else 1))
      && (due && !w.gaveUp ==> (v.gaveUp <==> what != Still && v.count >= 3))
  {
    hide DriftCheck;
  }

  // --- the watchdog ---

  const MAX_REINSTATEMENTS: nat := 3

  datatype Watch = Watch(next: int, count: nat, gaveUp: bool)

  function Tick(c: Config, interval: int, w: Watch, h: Home, path: string, now: int, disabled: bool, saved: bool)
    : (Watch, Home, Drift)
  {
    if now < w.next then (w, h, Still)
    else if w.gaveUp then (w.(next := now + interval), h, Still)
    else
      var (d, what) := DriftCheck(c, h, path, disabled, saved);
      var count := if what.Still? then w.count else w.count + 1;
      (Watch(now + interval, count, !what.Still? && count >= MAX_REINSTATEMENTS), d, what)
  }

  datatype Turn = Turn(home: Home, now: int, disabled: bool, saved: bool)

  /** How often a watchdog puts the hook back, whatever it finds at each turn. */
  function Reinstated(c: Config, interval: int, w: Watch, path: string, turns: seq<Turn>): nat
    decreases |turns|
  {
    if turns == [] then 0
    else
      var (v, _, what) := Tick(c, interval, w, turns[0].home, path, turns[0].now, turns[0].disabled, turns[0].saved);
      (if what.Still? then 0 else 1) + Reinstated(c, interval, v, path, turns[1..])
  }

  /** It never insists more than three times in one life of the daemon. */
  lemma {:induction false} GivesUp(c: Config, interval: int, w: Watch, path: string, turns: seq<Turn>)
    requires w.count <= MAX_REINSTATEMENTS && w.gaveUp == (w.count == MAX_REINSTATEMENTS)
    ensures Reinstated(c, interval, w, path, turns) <= MAX_REINSTATEMENTS - w.count
    decreases |turns|
  {
    hide DriftCheck;
    if turns != [] {
      var v := Tick(c, interval, w, turns[0].home, path, turns[0].now, turns[0].disabled, turns[0].saved).0;
      GivesUp(c, interval, v, path, turns[1..]);
    }
  }

  // --- the files themselves ---

  /** The settings file, the marker and the chain file. */
  class Installer {
    const c: Config
    var settings: Settings
    var marker: Option<string>
    var chain: Option<string>

    function Model(): Home
      reads this
    {
      Home(settings, marker, chain)
    }

    constructor (c: Config, h: Home)
      ensures this.c == c && Model() == h
    {
      this.c := c;
      settings, marker, chain := h.settings, h.marker, h.chain;
    }

    method DoInstall(path: string, saved: bool) returns (told: Told)
      modifies this
      ensures (Model(), told) == Install(c, old(Model()), path, saved)
    {
      hide Strip;
      if settings.Unreadable? { return Refused; }
      var previous := Current(settings);
      var command := c.shim(path);
      var recorded := ReadFile(marker);
      told := NothingChained;
      if previous != "" && !IsOurs(previous, recorded, Some(command)) {
        chain := Some(previous + "\n");
        told := Chained(previous);
      } else if previous == "" && recorded == "" {
        chain := None;
      }
      if !saved { return Failed; }
      settings := settings.(status := Written(command));
      marker := Some(command + "\n");
    }

    method DoUninstall(path: Option<string>, saved: bool)
      modifies this
      ensures Model() == if saved then Uninstall(old(Model()), ExpectedAt(c, path)) else old(Model())
    {
      hide Strip;
      if settings.Unreadable? { return; }
      var current := Current(settings);
      if current == "" { return; }
      var expected := if path.Some? then Some(c.shim(path.value)) else None;
      if !IsOurs(current, ReadFile(marker), expected) { return; }
      var previous := ReadFile(chain);
      if !saved { return; }
      settings := settings.(status := if previous != "" then Written(previous) else Absent);
      chain := None;
      marker := None;
    }

    method CheckDrift(path: string, disabled: bool, saved: bool) returns (what: Drift)
      modifies this
      ensures (Model(), what) == DriftCheck(c, old(Model()), path, disabled, saved)
    {
      hide Strip;
      if disabled { return Still; }
      if ReadFile(marker) == "" { return Still; }
      if settings.Unreadable? { return Still; }
      var current := Current(settings);
      var expected := c.shim(path);
      if current == expected { return Still; }
      if current == "" {
        what := Removed;
      } else if IsOurs(current, ReadFile(marker), Some(expected)) {
        what := Moved;
      } else {
        what := Replaced(current);
      }
      var told := DoInstall(path, saved);
      if told.Failed? { what := NotRestored; }
    }
  }

  /** A drift check on an interval, with a cap on how hard it insists. */
  class DriftWatchdog {
    const files: Installer
    const path: string
    const interval: int
    var next: int
    var reinstatements: nat
    var gaveUp: bool

    ghost function Model(): Watch
      reads this
    {
      Watch(next, reinstatements, gaveUp)
    }

    constructor (files: Installer, path: string, interval: int, now: int)
      ensures this.files == files && this.path == path && this.interval == interval
      ensures Model() == Watch(now, 0, false)
    {
      this.files, this.path, this.interval := files, path, interval;
      next, reinstatements, gaveUp := now, 0, false;
    }

    method DoTick(now: int, disabled: bool, saved: bool) returns (what: Drift)
      modifies this, files
      ensures (Model(), files.Model(), what) ==
              Tick(files.c, interval, old(Model()), old(files.Model()), path, now, disabled, saved)
    {
      hide DriftCheck;
      what := Still;
      if now < next { return; }
      next := now + interval;
      if !gaveUp {
        what := files.CheckDrift(path, disabled, saved);
        if !what.Still? {
          reinstatements := reinstatements + 1;
          if reinstatements >= MAX_REINSTATEMENTS {
            gaveUp := true;
          }
        }
      }
    }
  }
}
