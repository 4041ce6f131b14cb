/** Replacing the program in place: every state the directories pass through, and
    what a start-up finds after being interrupted in any of them. */
module Swap {
  import opened Bytes
  import opened Wrappers

  type Files = map<string, bytes>
  type Slot = Option<Files>

  /** <bin>, <bin>.old, <bin>.new, and a directory a caller staged somewhere else. */
  datatype Place = Bin | Prior | Staged | Elsewhere

  datatype Dirs = Dirs(bin: Slot, prior: Slot, staged: Slot, elsewhere: Slot) {
    function Get(p: Place): Slot {
      match p
      case Bin => bin
      case Prior => prior
      case Staged => staged
      case Elsewhere => elsewhere
    }

    function With(p: Place, s: Slot): Dirs {
      match p
      case Bin => this.(bin := s)
      case Prior => this.(prior := s)
      case Staged => this.(staged := s)
      case Elsewhere => this.(elsewhere := s)
    }
  }

  /** The executable's name, and what a tree prints when asked its version. */
  datatype Program = Program(exe: string, prints: Files -> Option<string>)

  predicate HasExe(p: Program, s: Slot) {
    s.Some? && p.exe in s.value
  }

  predicate Healthy(p: Program, s: Slot) {
    HasExe(p, s) && s.value[p.exe] != []
  }

  predicate Contains(text: string, part: string) {
    exists i | 0 <= i <= |text| :: StandsAt(text, part, i)
  }

  predicate StandsAt(text: string, part: string, i: nat) {
    i + |part| <= |text| && text[i..i + |part|] == part
  }

  predicate SelfTest(p: Program, s: Slot, version: string) {
    HasExe(p, s) && p.prints(s.value).Some? && Contains(p.prints(s.value).value, version)
  }

  /** A whole program: it is there, not empty, and it runs. */
  predicate Good(p: Program, s: Slot) {
    Healthy(p, s) && p.prints(s.value).Some?
  }

  /** There is a program to start, or a missing one that can be put back. */
  predicate Safe(p: Program, d: Dirs) {
    Good(p, d.bin) || (!Healthy(p, d.bin) && Good(p, d.prior))
  }

  /** What deleting a tree can leave of it. */
  predicate PartOf(a: Slot, b: Slot) {
    a.None? || (b.Some? && a.value.Keys <= b.value.Keys && forall k :: k in a.value ==> a.value[k] == b.value[k])
  }

  ghost predicate SafeSince(p: Program, trace: seq<Dirs>, from: nat) {
    forall i :: from <= i < |trace| ==> Safe(p, trace[i])
  }

  /** Every state since then differs from `d` at `place` only. */
  ghost predicate OnlyAt(d: Dirs, place: Place, trace: seq<Dirs>, from: nat) {
    forall i :: from <= i < |trace| ==> exists s :: trace[i] == d.With(place, s)
  }

  ghost predicate ShrinksAt(d: Dirs, place: Place, trace: seq<Dirs>, from: nat) {
    forall i :: from <= i < |trace| ==> PartOf(trace[i].Get(place), d.Get(place)) && trace[i] == d.With(place, trace[i].Get(place))
  }

  predicate Renames(d: Dirs, src: Place, dst: Place, after: Dirs) {
    d.Get(src).Some? && after == d.With(dst, d.Get(src)).With(src, None)
  }

  const REPLACE_TRIES: nat := 10

  datatype Renamed = Moved | Busy | Refused

  /** The three directories. Deletion, unpacking and renaming may each fail or stop
      short; `faults` counts when they did. */
  class Disk {
    const p: Program
    var dirs: Dirs
    var trace: seq<Dirs>         // every state, and so every place to be interrupted in
    ghost var faults: nat        // file operations that did not do what was asked

    ghost predicate Valid()
      reads this
    {
      trace != [] && trace[|trace| - 1] == dirs
    }

    constructor (p: Program, dirs: Dirs)
      ensures Valid() && this.p == p && this.dirs == dirs && trace == [dirs] && faults == 0
    {
      this.p, this.dirs := p, dirs;
      trace, faults := [dirs], 0;
    }

    method Put(place: Place, s: Slot)
      requires Valid()
      modifies this`dirs, this`trace
      ensures Valid() && dirs == old(dirs).With(place, s) && trace == old(trace) + [dirs]
    {
      dirs := dirs.With(place, s);
      trace := trace + [dirs];
    }

    /** Deletes file by file and may stop, or be unable to go on, anywhere. */
    method RemoveTree(place: Place)
      requires Valid()
      modifies this
      ensures Valid() && old(trace) <= trace && faults >= old(faults)
      ensures ShrinksAt(old(dirs), place, trace, |old(trace)|)
      ensures dirs == old(dirs).With(place, dirs.Get(place)) && PartOf(dirs.Get(place), old(dirs).Get(place))
      ensures faults == old(faults) ==> dirs.Get(place) == None
    {
      ghost var start, before := dirs, trace;
      if dirs.Get(place).None? { return; }
      var left := dirs.Get(place).value.Keys;
      while left != {}
        invariant Valid() && before <= trace && faults >= old(faults)
        invariant dirs == start.With(place, dirs.Get(place)) && dirs.Get(place).Some?
        invariant PartOf(dirs.Get(place), start.Get(place))
        invariant left <= dirs.Get(place).value.Keys
        invariant faults == old(faults) ==> dirs.Get(place).value.Keys == left
        invariant ShrinksAt(start, place, trace, |before|)
        decreases left
      {
        var name := AnyOf(left);
        left := left - {name};
        var removed: bool := *;
        if removed {
          Put(place, Some(dirs.Get(place).value - {name}));
        } else {
          faults := faults + 1;
        }
      }
      var gone: bool := *;
      if gone && dirs.Get(place).value == map[] {
        Put(place, None);
      } else {
        faults := faults + 1;
      }
    }

    /** One rename: all or nothing, and never over a directory with files in it. */
    method TryRename(src: Place, dst: Place) returns (r: Renamed)
      requires Valid() && src != dst
      modifies this
      ensures Valid() && old(trace) <= trace && faults >= old(faults)
      ensures r.Moved? ==> faults == old(faults) && Renames(old(dirs), src, dst, dirs) && trace == old(trace) + [dirs]
      ensures !r.Moved? ==> dirs == old(dirs) && trace == old(trace)
      ensures !r.Moved? ==> faults > old(faults) || old(dirs).Get(src).None? || old(dirs).Get(dst).Some?
    {
      var clear := dirs.Get(dst).None? || dirs.Get(dst).value == map[];
      var allowed: bool := *;
      if dirs.Get(src).None? { return Refused; }
      if !clear { return Busy; }
      if !allowed {
        faults := faults + 1;
        r := *;
        return if r.Moved? then Busy else r;
      }
      dirs := dirs.With(dst, dirs.Get(src)).With(src, None);
      trace := trace + [dirs];
      return Moved;
    }

    /** Ten tries while something still holds the directory. */
    method Replace(src: Place, dst: Place) returns (ok: bool)
      requires Valid() && src != dst
      modifies this
      ensures Valid() && old(trace) <= trace && faults >= old(faults)
      ensures ok ==> Renames(old(dirs), src, dst, dirs) && trace == old(trace) + [dirs]
      ensures !ok ==> dirs == old(dirs) && trace == old(trace)
      ensures !ok ==> faults > old(faults) || old(dirs).Get(src).None? || old(dirs).Get(dst).Some?
    {
      var attempt := 0;
      while attempt < REPLACE_TRIES
        invariant 0 <= attempt <= REPLACE_TRIES && Valid() && faults >= old(faults)
        invariant dirs == old(dirs) && trace == old(trace)
        invariant attempt > 0 ==> faults > old(faults) || old(dirs).Get(src).None? || old(dirs).Get(dst).Some?
      {
        var r := TryRename(src, dst);
        if r.Moved? { return true; }
        if r.Refused? { return false; }
        attempt := attempt + 1;
      }
      return false;
    }

    /** Writes the archive out file by file; an unusable archive is None. */
    method Unpack(archive: Option<Files>) returns (ok: bool)
      requires Valid()
      modifies this
      ensures Valid() && old(trace) <= trace && faults >= old(faults)
      ensures OnlyAt(old(dirs), Staged, trace, |old(trace)|) && dirs == old(dirs).With(Staged, dirs.staged)
      ensures ok ==> archive.Some? && (old(dirs).staged == None ==> dirs.staged == archive)
      ensures !ok ==> archive.None? || faults > old(faults)
    {
      ghost var start, before := dirs, trace;
      if dirs.staged.None? {
        Put(Staged, Some(map[]));
      }
      assert OnlyAt(start, Staged, trace, |before|) by {
        assert dirs == start.With(Staged, dirs.staged);
      }
      if archive.None? { return false; }
      var todo := archive.value.Keys;
      ghost var was := dirs.staged.value;
      while todo != {}
        invariant Valid() && before <= trace && dirs.staged.Some? && todo <= archive.value.Keys
        invariant faults == old(faults)
        invariant dirs == start.With(Staged, dirs.staged) && OnlyAt(start, Staged, trace, |before|)
        invariant was == map[] ==> dirs.staged.value.Keys == archive.value.Keys - todo
        invariant was == map[] ==> forall k :: k in dirs.staged.value ==> dirs.staged.value[k] == archive.value[k]
        decreases todo
      {
        var name := AnyOf(todo);
        var written: bool := *;
        if !written {
          faults := faults + 1;
          return false;
        }
        todo := todo - {name};
        Put(Staged, Some(dirs.staged.value[name := archive.value[name]]));
        assert trace[|trace| - 1] == start.With(Staged, dirs.staged);
      }
      assert was == map[] ==> dirs.staged.value == archive.value;
      return true;
    }

    /** Self-test, then <bin> to <bin>.old and the new program to <bin>. From a good
        program no state on the way is unsafe; True means the tested program is in
        place, and comes whenever it passes and no file operation failed. One that
        cannot be brought to <bin>.new raises, with <bin> as it was. */
    method SwapIn(from: Place, version: string) returns (ok: bool, raised: bool)
      requires Valid() && (from.Staged? || from.Elsewhere?)
      modifies this
      ensures Valid() && old(trace) <= trace && faults >= old(faults)
      ensures Good(p, old(dirs).bin) ==> SafeSince(p, trace, |old(trace)|)
      ensures Good(p, old(dirs).bin) && !ok ==> dirs.bin == old(dirs).bin || (dirs.bin == None && dirs.prior == old(dirs).bin)
      ensures ok ==> dirs.bin == old(dirs).Get(from) && SelfTest(p, dirs.bin, version)
      ensures ok ==> dirs.staged == None && dirs.Get(from) == None && !raised
      ensures ok && old(dirs).bin.Some? ==> dirs.prior == old(dirs).bin
      ensures !ok ==> !SelfTest(p, old(dirs).Get(from), version) || faults > old(faults)
      ensures raised ==> from.Elsewhere? && dirs.bin == old(dirs).bin && dirs.prior == old(dirs).prior
    {
      ghost var start, before := dirs, trace;
      raised := false;
      if !SelfTest(p, dirs.Get(from), version) {
        RemoveTree(from);
        return false, false;
      }
      if from != Staged {
        RemoveTree(Staged);
        var brought := Replace(from, Staged);
        if !brought { return false, true; }
      }
      ok := Rotate();
    }

    /** The two renames, and the way back. What is staged runs. */
    method Rotate() returns (ok: bool)
      requires Valid() && dirs.staged.Some? && p.prints(dirs.staged.value).Some?
      modifies this
      ensures Valid() && old(trace) <= trace && faults >= old(faults)
      ensures dirs.elsewhere == old(dirs).elsewhere
      ensures Good(p, old(dirs).bin) ==> SafeSince(p, trace, |old(trace)|)
      ensures Good(p, old(dirs).bin) && !ok ==> dirs.bin == old(dirs).bin || (dirs.bin == None && dirs.prior == old(dirs).bin)
      ensures ok ==> dirs.bin == old(dirs).staged && dirs.staged == None
      ensures ok && old(dirs).bin.Some? ==> dirs.prior == old(dirs).bin
      ensures !ok ==> faults > old(faults)
    {
      hide SafeSince, ShrinksAt;
      ghost var start, before := dirs, trace;
      RemoveTree(Prior);
      if Good(p, start.bin) { KeptSafe(p, start, Prior, before, trace); }
      ghost var cleared := trace;
      ok := true;
      if dirs.bin.Some? {
        ok := Replace(Bin, Prior);
        if Good(p, start.bin) && ok { SafeMore(p, cleared, dirs, |before|); }
      }
      ghost var between := trace;
      if ok {
        ok := Replace(Staged, Bin);
        if Good(p, start.bin) && ok { SafeMore(p, between, dirs, |before|); }
      }
      if !ok {
        ghost var failed := trace;
        PutBack();
        if Good(p, start.bin) { SafeBoth(p, failed, trace, |before|); }
      }
    }

    /** The way back, as far as the renames go, and the new program dropped. */
    method PutBack()
      requires Valid()
      modifies this
      ensures Valid() && old(trace) <= trace && faults >= old(faults)
      ensures dirs.elsewhere == old(dirs).elsewhere
      ensures Safe(p, old(dirs)) ==> SafeSince(p, trace, |old(trace)|)
      ensures old(dirs).bin.Some? ==> dirs.bin == old(dirs).bin && dirs.prior == old(dirs).prior
      ensures old(dirs).bin.None? ==> dirs.bin == old(dirs).prior || (dirs.bin == None && dirs.prior == old(dirs).prior)
    {
      hide SafeSince, ShrinksAt;
      ghost var start, before := dirs, trace;
      SafeNone(p, trace);
      if dirs.bin.None? && dirs.prior.Some? {
        var back := Replace(Prior, Bin);
        if Safe(p, start) && back { SafeMore(p, before, dirs, |before|); }
      }
      ghost var restored, last := dirs, trace;
      RemoveTree(Staged);
      if Safe(p, start) {
        KeptSafe(p, restored, Staged, last, trace);
        SafeBoth(p, last, trace, |before|);
      }
    }

    method Apply(archive: Option<Files>, version: string) returns (ok: bool)
      requires Valid()
      modifies this
      ensures Valid() && old(trace) <= trace && faults >= old(faults)
      ensures Good(p, old(dirs).bin) ==> SafeSince(p, trace, |old(trace)|)
      ensures Good(p, old(dirs).bin) && !ok ==>
        dirs.bin == old(dirs).bin || (dirs.bin == None && dirs.prior == old(dirs).bin)
      ensures ok ==> SelfTest(p, dirs.bin, version)
      ensures ok && faults == old(faults) ==> dirs.bin == archive
      ensures faults == old(faults) ==> (ok <==> SelfTest(p, archive, version))
    {
      RemoveTree(Staged);
      ghost var emptied, before := dirs, trace;
      var unpacked := Unpack(archive);
      if !unpacked || !HasExe(p, dirs.staged) {
        RemoveTree(Staged);
        return false;
      }
      var raised: bool;
      ok, raised := SwapIn(Staged, version);
    }

    /** At every start. From a safe state it passes safe states only, puts the previous
        program back exactly when the current one is missing or empty, and leaves a
        good program unless a file operation failed. */
    method Recover() returns (restored: bool)
      requires Valid()
      modifies this
      ensures Valid() && old(trace) <= trace && faults >= old(faults)
      ensures Safe(p, old(dirs)) ==> SafeSince(p, trace, |old(trace)|) && Safe(p, dirs)
      ensures Safe(p, old(dirs)) && faults == old(faults) ==> Good(p, dirs.bin)
      ensures restored ==> dirs.bin == old(dirs).prior && HasExe(p, dirs.bin) && dirs.prior == None
      ensures restored ==> !Healthy(p, old(dirs).bin)
      ensures Healthy(p, old(dirs).bin) || !HasExe(p, old(dirs).prior) ==> dirs == old(dirs) && !restored
      ensures !restored ==> dirs.prior == old(dirs).prior && PartOf(dirs.bin, old(dirs).bin)
    {
      if Healthy(p, dirs.bin) || !HasExe(p, dirs.prior) { return false; }
      ghost var start, before := dirs, trace;
      RemoveTree(Bin);
      var r := TryRename(Prior, Bin);
      return r.Moved?;
    }

    /** The rollback copy goes once the new program has talked to a board. */
    method Cleanup()
      requires Valid()
      modifies this
      ensures Valid() && old(trace) <= trace && faults >= old(faults)
      ensures Good(p, old(dirs).bin) ==> SafeSince(p, trace, |old(trace)|)
      ensures dirs.bin == old(dirs).bin && PartOf(dirs.prior, old(dirs).prior)
    {
      RemoveTree(Prior);
    }

    /** The power goes: what is on disk is whatever it was at some moment since. */
    method Interrupted(since: nat)
      requires Valid() && since < |trace|
      modifies this
      ensures Valid() && exists k :: since <= k < |old(trace)| && dirs == old(trace)[k] && trace == old(trace) + [dirs]
    {
      ghost var before := trace;
      var k: nat :| since <= k < |trace|;
      dirs := trace[k];
      trace := trace + [dirs];
      assert before[k] == dirs;
    }

    /** Any number of starts, updates to any versions and cleanups, each carried through
        or cut short at any moment, from a safe disk: no state was ever without a
        program to start or to put back. */
    method Life(rounds: nat, archives: nat -> Option<Files>, versions: nat -> string)
      requires Valid() && Safe(p, dirs)
      modifies this
      ensures Valid() && old(trace) <= trace && SafeSince(p, trace, |old(trace)|) && Safe(p, dirs)
    {
      var n := 0;
      while n < rounds
        invariant Valid() && old(trace) <= trace && SafeSince(p, trace, |old(trace)|) && Safe(p, dirs)
      {
        var since := |trace| - 1;
        var _ := Recover();
        if Good(p, dirs.bin) {
          var update: bool, clean: bool := *, *;
          if update {
            var _ := Apply(archives(n), versions(n));
          } else if clean {
            Cleanup();
          }
        }
        var cut: bool := *;
        if cut {
          Interrupted(since);
        }
        n := n + 1;
      }
    }
  }

  method AnyOf<T(==)>(s: set<T>) returns (x: T)
    requires s != {}
    ensures x in s
  {
    x :| x in s;
  }

  /** What the two checks look at: the executable is there and not empty; and it runs
      and the version stands somewhere in what it says. */
  lemma ChecksAre(p: Program, s: Slot, version: string)
    ensures Healthy(p, s) <==> s.Some? && p.exe in s.value && |s.value[p.exe]| > 0
    ensures SelfTest(p, s, version) <==>
      s.Some? && p.exe in s.value && p.prints(s.value).Some? &&
      exists before, after :: Around(p.prints(s.value).value, before, version, after)
  {
    hide StandsAt;
    if s.Some? && p.prints(s.value).Some? {
      var text := p.prints(s.value).value;
      forall i: nat | i <= |text| && StandsAt(text, version, i)
        ensures i + |version| <= |text| && Around(text, text[..i], version, text[i + |version|..])
      {
        StandsSplits(text, version, i);
      }
      forall before, after | Around(text, before, version, after)
        ensures |before| <= |text| && StandsAt(text, version, |before|)
      {
        AroundStands(text, before, version, after);
      }
    }
  }

  ghost predicate Around(text: string, before: string, part: string, after: string) {
    text == before + part + after
  }

  lemma StandsSplits(text: string, part: string, i: nat)
    requires StandsAt(text, part, i)
    ensures i + |part| <= |text| && Around(text, text[..i], part, text[i + |part|..])
  {
  }

  lemma AroundStands(text: string, before: string, part: string, after: string)
    requires Around(text, before, part, after)
    ensures |before| <= |text| && StandsAt(text, part, |before|)
  {
  }

  /** Deleting what nothing depends on passes safe states only. */
  lemma KeptSafe(p: Program, d: Dirs, place: Place, before: seq<Dirs>, trace: seq<Dirs>)
    requires before <= trace && ShrinksAt(d, place, trace, |before|)
    requires place.Staged? || place.Elsewhere? || (place.Prior? && Good(p, d.bin))
    requires Safe(p, d)
    ensures SafeSince(p, trace, |before|)
  {
    forall i | |before| <= i < |trace|
      ensures Safe(p, trace[i])
    {
      assert trace[i] == d.With(place, trace[i].Get(place));
    }
  }

  lemma SafeNone(p: Program, trace: seq<Dirs>)
    ensures SafeSince(p, trace, |trace|)
  {
  }

  lemma SafeMore(p: Program, trace: seq<Dirs>, d: Dirs, from: nat)
    requires SafeSince(p, trace, from) && Safe(p, d)
    ensures SafeSince(p, trace + [d], from)
  {
    hide Safe;
  }

  lemma SafeBoth(p: Program, before: seq<Dirs>, trace: seq<Dirs>, from: nat)
    requires before <= trace && SafeSince(p, before, from) && SafeSince(p, trace, |before|)
    ensures SafeSince(p, trace, from)
  {
    hide Safe;
  }

  /** Why a good <bin> is asked for: the rollback copy is deleted first, and that
      leaves something to start exactly when <bin> is good. */
  lemma DroppingRollbackIsSafeIff(p: Program, d: Dirs)
    ensures Safe(p, d.With(Prior, None)) <==> Good(p, d.bin)
  {
  }

  /** The order of the two renames is what makes them safe: between them the old
      program can be put back, and over an occupied <bin> nothing can be renamed. */
  lemma BetweenRenames(p: Program, d: Dirs)
    requires Good(p, d.bin) && d.prior == None
    ensures forall e, f :: Renames(d, Bin, Prior, e) && Renames(e, Staged, Bin, f) ==>
      Safe(p, e) && f.prior == d.bin && f.bin == d.staged
    ensures forall e :: Renames(d, Bin, Prior, e) ==> exists f :: Renames(e, Prior, Bin, f) && f == d
  {
    forall e | Renames(d, Bin, Prior, e)
      ensures exists f :: Renames(e, Prior, Bin, f) && f == d
    {
      assert Renames(e, Prior, Bin, d);
    }
  }
}
