/** Our hooks in a settings file that belongs to somebody else: every event we
    register for, the marker that records what we wrote, and both uninstalls. */
module Hooks {
  import opened HookGroups
  import opened Wrappers

  /** An event's list, or whatever stands there instead. */
  datatype Entries = Groups(groups: seq<Group>) | NotList(json: string)

  /** The `hooks` key: missing, null, an object, or whatever stands there instead. */
  datatype Value = Missing | Null | Events(events: map<string, Entries>) | NotObject(json: string)

  datatype Data = Unreadable | Data(hooks: Value, others: map<string, string>)

  datatype Files = Files(data: Data, marker: set<string>)

  /** The events we register, each with its matcher, and the command for a path. */
  datatype Config = Config(events: seq<(string, Option<string>)>, command: (string, string) -> string)

  ghost predicate Sane(c: Config) {
    forall i, j :: 0 <= i < j < |c.events| ==> c.events[i].0 != c.events[j].0
  }

  function Expected(c: Config, path: string): set<string> {
    set i | 0 <= i < |c.events| :: c.command(path, c.events[i].0)
  }

  function Get(m: map<string, Entries>, event: string): Option<Entries> {
    if event in m then Some(m[event]) else None
  }

  function Set(m: map<string, Entries>, event: string, o: Option<Entries>): map<string, Entries> {
    if o.Some? then m[event := o.value] else m - {event}
  }

  lemma SetGet(m: map<string, Entries>, event: string, o: Option<Entries>)
    ensures forall e :: Get(Set(m, event, o), e) == if e == event then o else Get(m, e)
  {
  }

  lemma SameMap(a: map<string, Entries>, b: map<string, Entries>)
    ensures a == b <==> forall e :: Get(a, e) == Get(b, e)
  {
    if forall e :: Get(a, e) == Get(b, e) {
      assert forall e :: e in a <==> Get(a, e).Some?;
      assert forall e :: e in b <==> Get(b, e).Some?;
      assert forall e :: e in a ==> Get(a, e) == Some(a[e]);
    }
  }

  function EventMap(v: Value): map<string, Entries> {
    if v.Events? then v.events else map[]
  }

  function ListOf(o: Option<Entries>): seq<Group> {
    if o.Some? && o.value.Groups? then o.value.groups else []
  }

  predicate Readable(o: Option<Entries>) {
    o.Some? ==> o.value.Groups?
  }

  /** A file of a shape we are willing to take from. */
  predicate Editable(c: Config, d: Data) {
    d.Data? && !d.hooks.NotObject? &&
    forall i | 0 <= i < |c.events| :: Readable(Get(EventMap(d.hooks), c.events[i].0))
  }

  /** A file of a shape we understand, and so are willing to add to. */
  predicate Understood(c: Config, d: Data) {
    Editable(c, d) && !d.hooks.Null?
  }

  // --- installing ---

  /** The first `n` events merged. */
  function Merged(c: Config, m: map<string, Entries>, path: string, mine: set<string>, n: nat): map<string, Entries>
    requires n <= |c.events|
  {
    if n == 0 then m
    else
      var (event, matcher) := c.events[n - 1];
      var before := Merged(c, m, path, mine, n - 1);
      Set(before, event, Some(Groups(Merge(ListOf(Get(before, event)), c.command(path, event), matcher, mine))))
  }

  /** None when the file is refused; nothing is changed then. */
  function Install(c: Config, f: Files, path: string): Option<Files> {
    if !Understood(c, f.data) then None
    else
      var mine := Expected(c, path) + f.marker;
      Some(Files(f.data.(hooks := Events(Merged(c, EventMap(f.data.hooks), path, mine, |c.events|))), Expected(c, path)))
  }

  // --- uninstalling ---

  /** One event without ours: an emptied list loses its key. */
  function Cleared(o: Option<Entries>, mine: set<string>): Option<Entries> {
    if o.None? || o.value.NotList? then o
    else
      var kept := Strip(o.value.groups, mine);
      if kept == [] then None else Some(Groups(kept))
  }

  /** The other tool's file: an event with nothing of ours is left as it stands. */
  function ClearedIfOurs(o: Option<Entries>, mine: set<string>): Option<Entries> {
    if Count(ListOf(o), mine) == 0 then o else Cleared(o, mine)
  }

  function Taken(o: Option<Entries>, mine: set<string>, onlyOurs: bool): Option<Entries> {
    if onlyOurs then ClearedIfOurs(o, mine) else Cleared(o, mine)
  }

  function Cleaned(c: Config, m: map<string, Entries>, mine: set<string>, onlyOurs: bool, n: nat): map<string, Entries>
    requires n <= |c.events|
  {
    if n == 0 then m
    else
      var before := Cleaned(c, m, mine, onlyOurs, n - 1);
      var event := c.events[n - 1].0;
      Set(before, event, Taken(Get(before, event), mine, onlyOurs))
  }

  function Tidied(m: map<string, Entries>): Value {
    if m == map[] then Missing else Events(m)
  }

  function ExpectedAt(c: Config, path: Option<string>): set<string> {
    if path.Some? then Expected(c, path.value) else {}
  }

  function Uninstall(c: Config, f: Files, path: Option<string>): Files {
    if f.data.Unreadable? then f
    else if !f.data.hooks.Events? then f.(marker := {})
    else
      var mine := ExpectedAt(c, path) + f.marker;
      Files(f.data.(hooks := Tidied(Cleaned(c, f.data.hooks.events, mine, false, |c.events|))), {})
  }

  predicate AnyOurs(c: Config, m: map<string, Entries>, mine: set<string>) {
    exists i | 0 <= i < |c.events| :: Count(ListOf(Get(m, c.events[i].0)), mine) > 0
  }

  /** It refuses what the install refuses, but for a null, where nothing can be ours;
      and a file with nothing of ours in it is not written at all. */
  function UninstallCodex(c: Config, f: Files, path: Option<string>): Files {
    if !Editable(c, f.data) then f
    else
      var mine := ExpectedAt(c, path) + f.marker;
      var m := EventMap(f.data.hooks);
      if !AnyOurs(c, m, mine) then f.(marker := {})
      else Files(f.data.(hooks := Tidied(Cleaned(c, m, mine, true, |c.events|))), {})
  }

  // --- event by event ---

  predicate Among(c: Config, event: string, n: nat) {
    exists i | 0 <= i < |c.events| && i < n :: c.events[i].0 == event
  }

  predicate Listed(c: Config, event: string) {
    Among(c, event, |c.events|)
  }

  lemma NextAmong(c: Config, n: nat, event: string)
    requires Sane(c) && n < |c.events|
    ensures Among(c, event, n + 1) <==> Among(c, event, n) || event == c.events[n].0
    ensures !Among(c, c.events[n].0, n)
  {
  }

  lemma {:induction false} MergedAt(c: Config, m: map<string, Entries>, path: string, mine: set<string>, n: nat, event: string)
    requires Sane(c) && n <= |c.events|
    ensures !Among(c, event, n) ==> Get(Merged(c, m, path, mine, n), event) == Get(m, event)
    ensures forall i :: 0 <= i < n && c.events[i].0 == event ==>
      Get(Merged(c, m, path, mine, n), event) ==
      Some(Groups(Merge(ListOf(Get(m, event)), c.command(path, event), c.events[i].1, mine)))
    decreases n
  {
    hide Merge, Get, Set, ListOf, Among;
    if n > 0 {
      NextAmong(c, n - 1, event);
      MergedAt(c, m, path, mine, n - 1, event);
      MergedAt(c, m, path, mine, n - 1, c.events[n - 1].0);
      var (e, matcher) := c.events[n - 1];
      var before := Merged(c, m, path, mine, n - 1);
      SetGet(before, e, Some(Groups(Merge(ListOf(Get(before, e)), c.command(path, e), matcher, mine))));
    }
  }

  lemma {:induction false} CleanedAt(c: Config, m: map<string, Entries>, mine: set<string>, onlyOurs: bool, n: nat, event: string)
    requires Sane(c) && n <= |c.events|
    ensures Get(Cleaned(c, m, mine, onlyOurs, n), event) ==
            if Among(c, event, n) then Taken(Get(m, event), mine, onlyOurs) else Get(m, event)
    decreases n
  {
    hide Taken, Get, Set, Among;
    if n > 0 {
      NextAmong(c, n - 1, event);
      CleanedAt(c, m, mine, onlyOurs, n - 1, event);
      var e := c.events[n - 1].0;
      var before := Cleaned(c, m, mine, onlyOurs, n - 1);
      SetGet(before, e, Taken(Get(before, e), mine, onlyOurs));
    } else {
      NoneAmong(c, event);
    }
  }

  lemma NoneAmong(c: Config, event: string)
    ensures !Among(c, event, 0)
  {
  }

  /** Besides what the marker recorded, ours is what an install at this path would
      write for some event, and nothing when the path is not known. */
  lemma ExpectedIs(c: Config, path: Option<string>, command: string)
    ensures command in ExpectedAt(c, path) <==>
      path.Some? && exists i :: 0 <= i < |c.events| && command == c.command(path.value, c.events[i].0)
  {
  }

  lemma CommandExpected(c: Config, path: string, i: nat)
    requires i < |c.events|
    ensures c.command(path, c.events[i].0) in Expected(c, path)
  {
  }

  lemma WhichListed(c: Config, event: string) returns (i: nat)
    requires Listed(c, event)
    ensures i < |c.events| && c.events[i].0 == event
  {
    i :| 0 <= i < |c.events| && c.events[i].0 == event;
  }

  // --- what others see ---

  /** One event's foreign hooks with the groups they fire under, or the value we
      cannot read. */
  function Foreign(o: Option<Entries>, mine: set<string>): (seq<Piece>, Option<Entries>) {
    if o.None? then ([], None) else if o.value.NotList? then ([], o) else (Pieces(o.value.groups, mine), None)
  }

  function At(d: Data, event: string): Option<Entries> {
    if d.Data? then Get(EventMap(d.hooks), event) else None
  }

  /** Installing leaves every other tool's hook where it was, under its own matcher,
      and every other key of the file; it never makes a second hook of ours. */
  lemma InstallRespects(c: Config, f: Files, path: string, event: string)
    requires Sane(c) && Understood(c, f.data)
    ensures var mine := Expected(c, path) + f.marker; var g := Install(c, f, path).value;
      && Foreign(At(g.data, event), mine) == Foreign(At(f.data, event), mine)
      && g.data.others == f.data.others
      && (Listed(c, event) ==>
           var n := Count(ListOf(At(f.data, event)), mine);
           Count(ListOf(At(g.data, event)), mine) == if n == 0 then 1 else n)
  {
    var mine := Expected(c, path) + f.marker;
    var m := EventMap(f.data.hooks);
    hide Merge, Pieces, Count, Merged, Expected;
    MergedAt(c, m, path, mine, |c.events|, event);
    NoPieces(mine);
    if Listed(c, event) {
      var i := WhichListed(c, event);
      CommandExpected(c, path, i);
      assert Readable(Get(m, c.events[i].0));
      MergeRespects(ListOf(Get(m, event)), c.command(path, event), c.events[i].1, mine);
    }
  }

  lemma NoPieces(mine: set<string>)
    ensures Pieces([], mine) == [] && Count([], mine) == 0 && Strip([], mine) == []
  {
  }

  lemma TakenRespects(o: Option<Entries>, mine: set<string>, onlyOurs: bool)
    ensures Foreign(Taken(o, mine, onlyOurs), mine) == Foreign(o, mine)
    ensures Count(ListOf(Taken(o, mine, onlyOurs)), mine) == 0
  {
    hide Strip, Pieces, Count;
    NoPieces(mine);
    if o.Some? && o.value.Groups? {
      StripRespects(o.value.groups, mine);
    }
  }

  lemma TidiedMap(m: map<string, Entries>)
    ensures EventMap(Tidied(m)) == m
  {
  }

  /** Uninstalling leaves every other tool's hook too, and none of ours under any
      event we register. */
  lemma UninstallRespects(c: Config, f: Files, path: Option<string>, event: string)
    requires Sane(c) && f.data.Data?
    ensures var mine := ExpectedAt(c, path) + f.marker; var g := Uninstall(c, f, path);
      && Foreign(At(g.data, event), mine) == Foreign(At(f.data, event), mine)
      && g.data.others == f.data.others && g.marker == {}
      && (Listed(c, event) ==> Count(ListOf(At(g.data, event)), mine) == 0)
  {
    hide Taken, Foreign, Count, Cleaned, ExpectedAt, Tidied, Get, Among;
    var mine := ExpectedAt(c, path) + f.marker;
    NoPieces(mine);
    EmptyMap(event);
    if f.data.hooks.Events? {
      var m := f.data.hooks.events;
      CleanedAt(c, m, mine, false, |c.events|, event);
      TakenRespects(Get(m, event), mine, false);
      TidiedMap(Cleaned(c, m, mine, false, |c.events|));
    }
  }

  lemma EmptyMap(event: string)
    ensures Get(map[], event) == None
  {
  }

  /** The same of the other tool's file, where a file it refuses is left alone with
      the marker that can still prove what is ours, and one with nothing of ours in it
      is not touched. */
  lemma UninstallCodexRespects(c: Config, f: Files, path: Option<string>, event: string)
    requires Sane(c)
    ensures var mine := ExpectedAt(c, path) + f.marker; var g := UninstallCodex(c, f, path);
      if !Editable(c, f.data) then g == f
      else
        && Foreign(At(g.data, event), mine) == Foreign(At(f.data, event), mine)
        && g.data.others == f.data.others && g.marker == {}
        && (Listed(c, event) ==> Count(ListOf(At(g.data, event)), mine) == 0)
        && (!AnyOurs(c, EventMap(f.data.hooks), mine) ==> g.data == f.data)
  {
    hide Taken, Foreign, Count, Cleaned, ExpectedAt, Tidied, Get, ListOf;
    var mine := ExpectedAt(c, path) + f.marker;
    if Editable(c, f.data) {
      var m := EventMap(f.data.hooks);
      CleanedAt(c, m, mine, true, |c.events|, event);
      TakenRespects(Get(m, event), mine, true);
      TidiedMap(Cleaned(c, m, mine, true, |c.events|));
      if Listed(c, event) {
        var i := WhichListed(c, event);
        assert !AnyOurs(c, m, mine) ==> Count(ListOf(Get(m, c.events[i].0)), mine) == 0;
      }
    }
  }

  // --- installing again, and elsewhere ---

  lemma InstallIs(c: Config, f: Files, path: string)
    requires Sane(c) && Understood(c, f.data)
    ensures f.data.Data?
    ensures var m := Merged(c, EventMap(f.data.hooks), path, Expected(c, path) + f.marker, |c.events|);
      Install(c, f, path) == Some(Files(f.data.(hooks := Events(m)), Expected(c, path)))
    ensures Understood(c, Install(c, f, path).value.data)
  {
    hide Merged, Expected, Get;
    var mine := Expected(c, path) + f.marker;
    var m := EventMap(f.data.hooks);
    forall i | 0 <= i < |c.events|
      ensures Readable(Get(Merged(c, m, path, mine, |c.events|), c.events[i].0))
    {
      MergedAt(c, m, path, mine, |c.events|, c.events[i].0);
    }
  }

  /** A second install changes nothing, the marker included. */
  lemma InstallTwice(c: Config, f: Files, path: string)
    requires Sane(c) && Understood(c, f.data)
    ensures var once := Install(c, f, path).value;
      Understood(c, once.data) && Install(c, once, path) == Some(once)
  {
    hide Merge, Merged, Expected, Install, Understood, Get, Among;
    var mine := Expected(c, path) + f.marker;
    InstallIs(c, f, path);
    InstallIs(c, Install(c, f, path).value, path);
    var m := EventMap(f.data.hooks);
    var again := Expected(c, path) + Expected(c, path);
    var r := Merged(c, m, path, mine, |c.events|);
    var rr := Merged(c, r, path, again, |c.events|);
    forall e
      ensures Get(rr, e) == Get(r, e)
    {
      MergedAt(c, m, path, mine, |c.events|, e);
      MergedAt(c, r, path, again, |c.events|, e);
      if Listed(c, e) {
        var i := WhichListed(c, e);
        CommandExpected(c, path, i);
        MergeTwice(ListOf(Get(m, e)), c.command(path, e), c.events[i].1, mine, again);
      }
    }
    SameMap(rr, r);
  }

  ghost predicate NoneOurs(c: Config, f: Files, mine: set<string>) {
    Understood(c, f.data) && forall i :: 0 <= i < |c.events| ==> Count(ListOf(At(f.data, c.events[i].0)), mine) == 0
  }

  lemma {:induction false} CountFewer(groups: seq<Group>, mine: set<string>, fewer: set<string>)
    requires fewer <= mine && Count(groups, mine) == 0
    ensures Count(groups, fewer) == 0
  {
    hide HasMine, Count;
    NoneCounted(groups, mine);
    BeforeFirst(groups, mine);
    forall k | 0 <= k < |groups|
      ensures !HasMine(groups[k], fewer)
    {
      FewerMine(groups[k], mine, fewer);
    }
    FirstGroupIs(groups, fewer, |groups|);
    NoneCounted(groups, fewer);
  }

  lemma MergeNew(groups: seq<Group>, command: string, matcher: Option<string>, mine: set<string>, other: set<string>)
    requires Count(groups, mine) == 0 && Count(groups, other) == 0
    ensures Merge(groups, command, matcher, mine) == Merge(groups, command, matcher, other)
  {
    hide Count;
    NoneCounted(groups, mine);
    NoneCounted(groups, other);
  }

  /** Where nothing was ours, an install after the program moved repoints every hook:
      the file is what the new place alone would have written. */
  lemma InstallMoved(c: Config, f: Files, one: string, two: string)
    requires Sane(c) && NoneOurs(c, f, Expected(c, one) + Expected(c, two) + f.marker)
    ensures Install(c, Install(c, f, one).value, two) == Install(c, f, two)
  {
    assert Understood(c, f.data);
    hide Count, Merge, Merged, Understood, Install, Expected, Get, Among, EventMap;
    var all := Expected(c, one) + Expected(c, two) + f.marker;
    var first, later := Expected(c, one) + f.marker, Expected(c, two) + Expected(c, one);
    var direct := Expected(c, two) + f.marker;
    InstallIs(c, f, one);
    InstallIs(c, f, two);
    InstallIs(c, Install(c, f, one).value, two);
    var m := EventMap(f.data.hooks);
    var r := Merged(c, m, one, first, |c.events|);
    var a, b := Merged(c, r, two, later, |c.events|), Merged(c, m, two, direct, |c.events|);
    forall e
      ensures Get(a, e) == Get(b, e)
    {
      MergedAt(c, m, one, first, |c.events|, e);
      MergedAt(c, r, two, later, |c.events|, e);
      MergedAt(c, m, two, direct, |c.events|, e);
      if Listed(c, e) {
        var i := WhichListed(c, e);
        var g := ListOf(Get(m, e));
        CommandExpected(c, one, i);
        CommandExpected(c, two, i);
        CountFewer(g, all, first);
        CountFewer(g, all, later);
        CountFewer(g, all, direct);
        MergeMoved(g, c.command(one, e), c.command(two, e), c.events[i].1, first, later);
        MergeNew(g, c.command(two, e), c.events[i].1, later, direct);
      }
    }
    SameMap(a, b);
  }

  // --- and out again ---

  /** An entry an install and uninstall give back as it was. */
  predicate Plain(o: Option<Entries>) {
    o.Some? ==>
      o.value.Groups? && o.value.groups != [] &&
      forall i | 0 <= i < |o.value.groups| :: !(o.value.groups[i].Group? && o.value.groups[i].hooks == Some([]))
  }

  lemma ComesBackIff(o: Option<Entries>, command: string, matcher: Option<string>,
                     mine: set<string>, later: set<string>, onlyOurs: bool)
    requires Readable(o) && command in mine && command in later
    requires Count(ListOf(o), mine) == 0 && Count(ListOf(o), later) == 0
    ensures var installed := Some(Groups(Merge(ListOf(o), command, matcher, mine)));
      && Count(ListOf(installed), later) == 1
      && (Taken(installed, later, onlyOurs) == o <==> Plain(o))
  {
    hide Merge, Strip, Count;
    var groups := ListOf(o);
    MergeNew(groups, command, matcher, mine, later);
    MergeRespects(groups, command, matcher, later);
    MergeThenStrip(groups, command, matcher, mine, later);
    NoPieces(later);
  }

  lemma TidiedIff(v: Value, r: map<string, Entries>)
    requires !v.NotObject? && !v.Null?
    ensures Tidied(r) == v <==> r == EventMap(v) && v != Events(map[])
  {
  }

  /** The event map after install and uninstall is the one before exactly when every
      registered event was missing or plain. */
  lemma MapComesBackIff(c: Config, m: map<string, Entries>, path: string, mine: set<string>, later: set<string>, onlyOurs: bool)
    requires Sane(c)
    requires forall i :: 0 <= i < |c.events| ==>
      var e := c.events[i].0;
      && Readable(Get(m, e)) && c.command(path, e) in mine && c.command(path, e) in later
      && Count(ListOf(Get(m, e)), mine) == 0 && Count(ListOf(Get(m, e)), later) == 0
    ensures var r := Merged(c, m, path, mine, |c.events|);
      && (Cleaned(c, r, later, onlyOurs, |c.events|) == m <==> forall i :: 0 <= i < |c.events| ==> Plain(Get(m, c.events[i].0)))
      && (|c.events| > 0 ==> AnyOurs(c, r, later))
  {
    hide Merge, Count, Plain, Get, Merged, Cleaned, Taken, Among, ListOf;
    var r := Merged(c, m, path, mine, |c.events|);
    var d := Cleaned(c, r, later, onlyOurs, |c.events|);
    forall i | 0 <= i < |c.events|
      ensures Get(d, c.events[i].0) == Get(m, c.events[i].0) <==> Plain(Get(m, c.events[i].0))
      ensures Count(ListOf(Get(r, c.events[i].0)), later) > 0
    {
      var e := c.events[i].0;
      MergedAt(c, m, path, mine, |c.events|, e);
      CleanedAt(c, r, later, onlyOurs, |c.events|, e);
      ComesBackIff(Get(m, e), c.command(path, e), c.events[i].1, mine, later, onlyOurs);
    }
    SameMap(d, m);
    if |c.events| > 0 {
      assert Count(ListOf(Get(r, c.events[0].0)), later) > 0;
    }
    if forall i :: 0 <= i < |c.events| ==> Plain(Get(m, c.events[i].0)) {
      forall e
        ensures Get(d, e) == Get(m, e)
      {
        if Listed(c, e) {
          var i := WhichListed(c, e);
        } else {
          MergedAt(c, m, path, mine, |c.events|, e);
          CleanedAt(c, r, later, onlyOurs, |c.events|, e);
        }
      }
    }
  }

  /** Where nothing was ours, installing and uninstalling give the very file back
      exactly when it had no empty `hooks` object, no empty list under an event we
      register, and no group there with an empty hook list. The other tool's
      uninstall is no kinder, since by then there is something of ours everywhere. */
  lemma RoundTripIff(c: Config, f: Files, path: string)
    requires Sane(c) && |c.events| > 0 && NoneOurs(c, f, Expected(c, path) + f.marker)
    ensures var g := Install(c, f, path).value;
      var plain := f.data.hooks != Events(map[]) && forall i :: 0 <= i < |c.events| ==> Plain(At(f.data, c.events[i].0));
      && (Uninstall(c, g, Some(path)).data == f.data <==> plain)
      && (UninstallCodex(c, g, Some(path)).data == f.data <==> plain)
  {
    assert Understood(c, f.data);
    var m := EventMap(f.data.hooks);
    var mine, later := Expected(c, path) + f.marker, Expected(c, path) + Expected(c, path);
    forall i | 0 <= i < |c.events|
      ensures var e := c.events[i].0;
        && Readable(Get(m, e)) && c.command(path, e) in mine && c.command(path, e) in later
        && Count(ListOf(Get(m, e)), mine) == 0 && Count(ListOf(Get(m, e)), later) == 0
    {
      CommandExpected(c, path, i);
      CountFewer(ListOf(Get(m, c.events[i].0)), mine, later);
    }
    hide Count, Merged, Cleaned, Understood, Plain, Expected, Get, ListOf, Readable, AnyOurs, Install, Tidied;
    InstallIs(c, f, path);
    MapComesBackIff(c, m, path, mine, later, false);
    MapComesBackIff(c, m, path, mine, later, true);
    var r := Merged(c, m, path, mine, |c.events|);
    TidiedIff(f.data.hooks, Cleaned(c, r, later, false, |c.events|));
    TidiedIff(f.data.hooks, Cleaned(c, r, later, true, |c.events|));
  }

  lemma ClearedIsSame(o: Option<Entries>, mine: set<string>)
    requires Readable(o) && Count(ListOf(o), mine) == 0
    ensures Taken(o, mine, true) == o
    ensures Taken(o, mine, false) == o <==> Plain(o)
  {
    hide Strip, Count, HasMine;
    if o.Some? {
      StripIsIdentityIff(o.value.groups, mine);
      NoneCounted(o.value.groups, mine);
      BeforeFirst(o.value.groups, mine);
    }
  }

  /** Where nothing is ours the other tool's uninstall changes nothing, and the first
      one's nothing exactly when there is no empty `hooks` object, no empty list under an
      event we register and no group there with an empty hook list. */
  lemma NothingOursIff(c: Config, f: Files, path: Option<string>)
    requires Sane(c) && NoneOurs(c, f, ExpectedAt(c, path) + f.marker)
    ensures UninstallCodex(c, f, path).data == f.data
    ensures Uninstall(c, f, path).data == f.data <==>
      f.data.hooks != Events(map[]) && forall i :: 0 <= i < |c.events| ==> Plain(At(f.data, c.events[i].0))
  {
    var mine := ExpectedAt(c, path) + f.marker;
    var m := EventMap(f.data.hooks);
    hide Taken, Count, Cleaned, ExpectedAt, Get, ListOf, Plain, Among, Readable;
    if f.data.hooks.Events? {
      var d := Cleaned(c, m, mine, false, |c.events|);
      forall i | 0 <= i < |c.events|
        ensures Get(d, c.events[i].0) == Get(m, c.events[i].0) <==> Plain(Get(m, c.events[i].0))
      {
        CleanedAt(c, m, mine, false, |c.events|, c.events[i].0);
        ClearedIsSame(Get(m, c.events[i].0), mine);
      }
      SameMap(d, m);
      if forall i :: 0 <= i < |c.events| ==> Plain(Get(m, c.events[i].0)) {
        forall e
          ensures Get(d, e) == Get(m, e)
        {
          if Listed(c, e) {
            var i := WhichListed(c, e);
          } else {
            CleanedAt(c, m, mine, false, |c.events|, e);
          }
        }
      }
      TidiedIff(f.data.hooks, d);
    } else {
      NothingIsPlain(c, f.data);
    }
  }

  lemma NothingIsPlain(c: Config, d: Data)
    requires d.Data? && !d.hooks.Events?
    ensures forall i :: 0 <= i < |c.events| ==> Plain(At(d, c.events[i].0))
  {
  }

  // --- the loops ---

  lemma FirstGroupStep(groups: seq<Group>, mine: set<string>, i: nat)
    requires i <= |groups| && forall k :: 0 <= k < i ==> !HasMine(groups[k], mine)
    ensures i < |groups| && HasMine(groups[i], mine) ==> FirstGroup(groups, mine) == i
    ensures i == |groups| ==> FirstGroup(groups, mine) == i
  {
    if i == |groups| || HasMine(groups[i], mine) {
      FirstGroupIs(groups, mine, i);
    }
  }

  lemma FirstMineStep(hooks: seq<Hook>, mine: set<string>, j: nat)
    requires j <= |hooks| && forall k :: 0 <= k < j ==> !Mine(hooks[k], mine)
    ensures j < |hooks| && Mine(hooks[j], mine) ==> FirstMine(hooks, mine) == j
    ensures j == |hooks| ==> FirstMine(hooks, mine) == j
  {
    FirstMineIs(hooks, mine);
    if j < |hooks| && Mine(hooks[j], mine) {
      FirstMineThere(hooks, mine, j);
    }
  }

  /** The first group with a hook of ours, and the hook. */
  method FindOurs(groups: seq<Group>, mine: set<string>) returns (i: nat, j: nat)
    ensures i == FirstGroup(groups, mine)
    ensures i < |groups| ==> j == FirstMine(Inner(groups[i]), mine)
  {
    hide FirstGroup, FirstMine, Mine;
    i, j := 0, 0;
    while i < |groups|
      invariant 0 <= i <= |groups|
      invariant forall k :: 0 <= k < i ==> !HasMine(groups[k], mine)
    {
      FirstGroupStep(groups, mine, i);
      var hooks := Inner(groups[i]);
      j := 0;
      while j < |hooks|
        invariant 0 <= j <= |hooks|
        invariant forall k :: 0 <= k < j ==> !Mine(hooks[k], mine)
      {
        FirstMineStep(hooks, mine, j);
        if Mine(hooks[j], mine) { return; }
        j := j + 1;
      }
      FirstMineStep(hooks, mine, j);
      i := i + 1;
    }
    FirstGroupStep(groups, mine, i);
  }

  method MergeInto(groups: seq<Group>, command: string, matcher: Option<string>, mine: set<string>)
    returns (r: seq<Group>)
    ensures r == Merge(groups, command, matcher, mine)
  {
    hide FirstGroup, FirstMine;
    var i, j := FindOurs(groups, mine);
    if i == |groups| {
      return groups + [NewGroup(command, matcher)];
    }
    FirstMineIs(Inner(groups[i]), mine);
    var hooks := groups[i].hooks.value;
    var g := groups[i].(hooks := Some(hooks[j := hooks[j].(command := command)]));
    if |hooks| == 1 && g.matcher != matcher {
      g := g.(matcher := matcher);
    }
    return groups[i := g];
  }

  method StripGroups(groups: seq<Group>, mine: set<string>) returns (kept: seq<Group>, removed: nat)
    ensures kept == Strip(groups, mine)
    ensures removed == Count(groups, mine)
  {
    hide Strip, Count, Kept, CountIn;
    kept, removed := [], 0;
    NoPieces(mine);
    var i := 0;
    while i < |groups|
      invariant 0 <= i <= |groups|
      invariant kept == Strip(groups[..i], mine) && removed == Count(groups[..i], mine)
    {
      var group := groups[i];
      StripStep(groups, i, mine);
      if group.Odd? || group.hooks.None? {
        kept := kept + [group];
        NoneIn(mine);
      } else {
        var inner := group.hooks.value;
        var left := Filter(inner, mine);
        KeptAll(inner, mine);
        removed := removed + (|inner| - |left|);
        if left != [] {
          kept := kept + [group.(hooks := Some(left))];
        } else {
          assert kept + [] == kept;
        }
      }
      i := i + 1;
    }
    assert groups[..i] == groups;
  }

  lemma NoneIn(mine: set<string>)
    ensures CountIn([], mine) == 0
  {
  }

  lemma StripStep(groups: seq<Group>, i: nat, mine: set<string>)
    requires i < |groups|
    ensures Strip(groups[..i + 1], mine) == Strip(groups[..i], mine) + Stripped(groups[i], mine)
    ensures Count(groups[..i + 1], mine) == Count(groups[..i], mine) + CountIn(Inner(groups[i]), mine)
  {
    hide Stripped, CountIn;
    assert groups[..i + 1][..i] == groups[..i];
  }

  method Filter(hooks: seq<Hook>, mine: set<string>) returns (kept: seq<Hook>)
    ensures kept == Kept(hooks, mine)
  {
    kept := [];
    var j := 0;
    while j < |hooks|
      invariant 0 <= j <= |hooks| && kept == Kept(hooks[..j], mine)
    {
      assert hooks[..j + 1][..j] == hooks[..j];
      if !Mine(hooks[j], mine) {
        kept := kept + [hooks[j]];
      }
      j := j + 1;
    }
    assert hooks[..j] == hooks;
  }

  /** The hooks file and the marker beside it. */
  class Registrar {
    const c: Config
    var data: Data
    var marker: set<string>

    function Model(): Files
      reads this
    {
      Files(data, marker)
    }

    constructor (c: Config, f: Files)
      ensures this.c == c && Model() == f
    {
      this.c := c;
      data, marker := f.data, f.marker;
    }

    /** False, and nothing written, for a file of a shape we do not understand. */
    method DoInstall(path: string) returns (ok: bool)
      modifies this
      ensures ok == Install(c, old(Model()), path).Some?
      ensures Model() == if ok then Install(c, old(Model()), path).value else old(Model())
    {
      hide Merge, Expected;
      if !Understood(c, data) { return false; }
      var expected := Expected(c, path);
      var mine := expected + marker;
      var m := EventMap(data.hooks);
      ghost var m0 := m;
      var i := 0;
      while i < |c.events|
        invariant 0 <= i <= |c.events| && data == old(data) && marker == old(marker)
        invariant m == Merged(c, m0, path, mine, i)
      {
        var (event, matcher) := c.events[i];
        var merged := MergeInto(ListOf(Get(m, event)), c.command(path, event), matcher, mine);
        m := m[event := Groups(merged)];
        i := i + 1;
      }
      data := data.(hooks := Events(m));
      marker := expected;
      return true;
    }

    method DoUninstall(path: Option<string>)
      modifies this
      ensures Model() == Uninstall(c, old(Model()), path)
    {
      hide Strip, Expected;
      if data.Unreadable? { return; }
      if !data.hooks.Events? {
        marker := {};
        return;
      }
      var mine := ExpectedAt(c, path) + marker;
      var m := data.hooks.events;
      var i := 0;
      while i < |c.events|
        invariant 0 <= i <= |c.events| && data == old(data) && marker == old(marker)
        invariant m == Cleaned(c, data.hooks.events, mine, false, i)
      {
        var event := c.events[i].0;
        if event in m && m[event].Groups? {
          var kept, _ := StripGroups(m[event].groups, mine);
          if kept != [] {
            m := m[event := Groups(kept)];
          } else {
            m := m - {event};
          }
        } else {
          SetSame(m, event);
        }
        i := i + 1;
      }
      data := data.(hooks := if m == map[] then Missing else Events(m));
      marker := {};
    }

    /** Nothing is written back unless something of ours came out. */
    method DoUninstallCodex(path: Option<string>)
      requires Sane(c)
      modifies this
      ensures Model() == UninstallCodex(c, old(Model()), path)
    {
      hide Expected, AnyOurs, ExpectedAt, Cleaned, Total;
      if !Editable(c, data) { return; }
      var mine := ExpectedAt(c, path) + marker;
      var m := EventMap(data.hooks);
      var cleaned, removed := CleanOurs(c, m, mine);
      TotalIsAny(c, m, mine, |c.events|);
      TotalAny(c, m, mine);
      marker := {};
      if removed == 0 { return; }
      data := data.(hooks := if cleaned == map[] then Missing else Events(cleaned));
    }
  }

  /** The event map without ours, and how many came out. */
  method CleanOurs(c: Config, events: map<string, Entries>, mine: set<string>)
    returns (m: map<string, Entries>, removed: nat)
    requires Sane(c) && forall i :: 0 <= i < |c.events| ==> Readable(Get(events, c.events[i].0))
    ensures m == Cleaned(c, events, mine, true, |c.events|) && removed == Total(c, events, mine, |c.events|)
  {
    hide *;
    m, removed := events, 0;
    CleanedNone(c, events, mine);
    var i := 0;
    while i < |c.events|
      invariant 0 <= i <= |c.events|
      invariant m == Cleaned(c, events, mine, true, i) && removed == Total(c, events, mine, i)
    {
      var event := c.events[i].0;
      CleanedStep(c, events, mine, i);
      var kept, here := StripGroups(ListOf(Get(m, event)), mine);
      if here != 0 {
        removed := removed + here;
        m := Set(m, event, if kept != [] then Some(Groups(kept)) else None);
      }
      i := i + 1;
    }
  }

  lemma CleanedNone(c: Config, m: map<string, Entries>, mine: set<string>)
    ensures Cleaned(c, m, mine, true, 0) == m && Total(c, m, mine, 0) == 0
  {
  }

  lemma CleanedStep(c: Config, m: map<string, Entries>, mine: set<string>, i: nat)
    requires Sane(c) && i < |c.events| && Readable(Get(m, c.events[i].0))
    ensures var before := Cleaned(c, m, mine, true, i);
      var event := c.events[i].0;
      var groups := ListOf(Get(before, event));
      var kept := Strip(groups, mine);
      && Total(c, m, mine, i + 1) == Total(c, m, mine, i) + Count(groups, mine)
      && Cleaned(c, m, mine, true, i + 1) ==
         if Count(groups, mine) == 0 then before else Set(before, event, if kept != [] then Some(Groups(kept)) else None)
  {
    hide Strip, Count, Get, Set;
    var event := c.events[i].0;
    var before := Cleaned(c, m, mine, true, i);
    CleanedAt(c, m, mine, true, i, event);
    NextAmong(c, i, event);
    SetSame(before, event);
    NoPieces(mine);
  }

  function Total(c: Config, m: map<string, Entries>, mine: set<string>, n: nat): nat
    requires n <= |c.events|
  {
    if n == 0 then 0 else Total(c, m, mine, n - 1) + Count(ListOf(Get(m, c.events[n - 1].0)), mine)
  }

  lemma {:induction false} TotalIsAny(c: Config, m: map<string, Entries>, mine: set<string>, n: nat)
    requires n <= |c.events|
    ensures Total(c, m, mine, n) > 0 <==> exists k :: 0 <= k < n && Count(ListOf(Get(m, c.events[k].0)), mine) > 0
    decreases n
  {
    hide Count, Get, ListOf;
    if n > 0 {
      TotalIsAny(c, m, mine, n - 1);
    }
  }

  lemma TotalAny(c: Config, m: map<string, Entries>, mine: set<string>)
    ensures AnyOurs(c, m, mine) <==> exists k :: 0 <= k < |c.events| && Count(ListOf(Get(m, c.events[k].0)), mine) > 0
  {
    hide Count, Get, ListOf;
  }

  lemma SetSame(m: map<string, Entries>, event: string)
    ensures Set(m, event, Get(m, event)) == m
  {
  }
}
