/** The parsed-file cache: what it may answer over every interleaving of polls and
    rewrites, its accounting, and least-recently-used eviction. */
module Cache {
  import Listing
  import opened Wrappers

  const MAX_FILES: nat := 16
  const MAX_BYTES: nat := 4 * 1024 * 1024

  /** Nanoseconds a file must have been still before it is trusted. */
  const SETTLE: int := 2_000_000_000

  datatype Key = Key(path: string, size: nat, mtime: int)

  datatype Slot<E> = Slot(key: Key, entries: seq<E>)

  /** Slots by last use, least recent first. */
  datatype Cache<E> = Cache(slots: seq<Slot<E>>, bytes: int)

  function Size<E>(slots: seq<Slot<E>>): nat {
    if slots == [] then 0 else slots[0].key.size + Size(slots[1..])
  }

  /** Where a key is kept, or the end. */
  function Place<E>(slots: seq<Slot<E>>, key: Key): (i: nat)
    ensures i <= |slots|
    ensures i < |slots| ==> slots[i].key == key
    ensures i == |slots| ==> forall j :: 0 <= j < |slots| ==> slots[j].key != key
  {
    if slots == [] || slots[0].key == key then 0 else 1 + Place(slots[1..], key)
  }

  function Without<E>(slots: seq<Slot<E>>, i: nat): seq<Slot<E>>
    requires i < |slots|
  {
    slots[..i] + slots[i + 1..]
  }

  predicate Over<E>(c: Cache<E>) {
    c.slots != [] && (|c.slots| > MAX_FILES || c.bytes > MAX_BYTES)
  }

  function Evicted<E>(c: Cache<E>): Cache<E>
    decreases |c.slots|
  {
    if Over(c) then Evicted(Cache(c.slots[1..], c.bytes - c.slots[0].key.size)) else c
  }

  function Store<E>(c: Cache<E>, key: Key, entries: seq<E>): Cache<E> {
    var i := Place(c.slots, key);
    var rest := if i < |c.slots| then Without(c.slots, i) else c.slots;
    Evicted(Cache(rest + [Slot(key, entries)], c.bytes + key.size))
  }

  function Hit<E>(c: Cache<E>, i: nat): Cache<E>
    requires i < |c.slots|
  {
    c.(slots := Without(c.slots, i) + [c.slots[i]])
  }

  /** One file of a poll: `read` is what reading and parsing it gives now. */
  function Look<E>(c: Cache<E>, key: Key, now: int, read: Option<seq<E>>): (Option<seq<E>>, Cache<E>) {
    var i := Place(c.slots, key);
    if i < |c.slots| then (Some(c.slots[i].entries), Hit(c, i))
    else
      match read
      case None => (None, c)
      case Some(entries) =>
        (read, if now - key.mtime >= SETTLE then Store(c, key, entries) else c)
  }

  // --- accounting ---

  ghost predicate Distinct<E>(slots: seq<Slot<E>>) {
    forall i, j :: 0 <= i < j < |slots| ==> slots[i].key != slots[j].key
  }

  /** The byte count is exact, the limits hold and no file is kept twice. */
  ghost predicate Accounted<E>(c: Cache<E>) {
    && c.bytes == Size(c.slots)
    && |c.slots| <= MAX_FILES && c.bytes <= MAX_BYTES
    && Distinct(c.slots)
  }

  lemma {:induction false} SizeAppend<E>(a: seq<Slot<E>>, b: seq<Slot<E>>)
    ensures Size(a + b) == Size(a) + Size(b)
  {
    if a == [] {
      assert a + b == b;
    } else {
      SizeAppend(a[1..], b);
      assert (a + b)[1..] == a[1..] + b;
    }
  }

  lemma SizeWithout<E>(slots: seq<Slot<E>>, i: nat)
    requires i < |slots|
    ensures Size(slots) == Size(Without(slots, i)) + slots[i].key.size
  {
    hide Size;
    var a, one, b := slots[..i], [slots[i]], slots[i + 1..];
    SplitAt(slots, i);
    SizeAppend(a + one, b);
    SizeAppend(a, one);
    SizeAppend(a, b);
    SizeOne(slots[i]);
  }

  lemma SplitAt<T>(s: seq<T>, i: nat)
    requires i < |s|
    ensures s == (s[..i] + [s[i]]) + s[i + 1..]
  {
  }

  lemma SizeHead<E>(slots: seq<Slot<E>>)
    ensures Size(slots) == if slots == [] then 0 else slots[0].key.size + Size(slots[1..])
  {
  }

  /** Eviction drops from the front, exactly as far as the limits need. */
  lemma {:induction false} EvictsFewest<E>(c: Cache<E>) returns (k: nat)
    requires c.bytes == Size(c.slots)
    ensures k <= |c.slots| && Evicted(c) == Cache(c.slots[k..], Size(c.slots[k..]))
    ensures !Over(Evicted(c)) && (Evicted(c).slots == [] ==> Evicted(c).bytes == 0)
    ensures forall j :: 0 <= j < k ==> Over(Cache(c.slots[j..], Size(c.slots[j..])))
    decreases |c.slots|
  {
    SizeHead(c.slots);
    hide Size;
    if Over(c) {
      var rest := Cache(c.slots[1..], c.bytes - c.slots[0].key.size);
      var n := EvictsFewest(rest);
      k := n + 1;
      assert c.slots[1..][n..] == c.slots[k..];
      forall j | 0 <= j < k
        ensures Over(Cache(c.slots[j..], Size(c.slots[j..])))
      {
        if j == 0 {
          assert c.slots[0..] == c.slots;
        } else {
          assert c.slots[1..][j - 1..] == c.slots[j..];
        }
      }
    } else {
      k := 0;
      assert c.slots[0..] == c.slots;
    }
  }

  lemma HitAccounted<E>(c: Cache<E>, i: nat)
    requires Accounted(c) && i < |c.slots|
    ensures Accounted(Hit(c, i))
  {
    hide Size;
    SizeWithout(c.slots, i);
    SizeAppend(Without(c.slots, i), [c.slots[i]]);
    SizeOne(c.slots[i]);
  }

  lemma SizeOne<E>(s: Slot<E>)
    ensures Size([s]) == s.key.size
  {
    assert [s][1..] == [];
  }

  lemma StoreAccounted<E>(c: Cache<E>, key: Key, entries: seq<E>)
    requires Accounted(c) && Place(c.slots, key) == |c.slots|
    ensures Accounted(Store(c, key, entries))
  {
    hide Size, Evicted;
    var grown := Cache(c.slots + [Slot(key, entries)], c.bytes + key.size);
    SizeAppend(c.slots, [Slot(key, entries)]);
    SizeOne(Slot(key, entries));
    var k := EvictsFewest(grown);
  }

  lemma LookAccounted<E>(c: Cache<E>, key: Key, now: int, read: Option<seq<E>>)
    requires Accounted(c)
    ensures Accounted(Look(c, key, now, read).1)
  {
    hide Accounted, Store, Hit;
    var i := Place(c.slots, key);
    if i < |c.slots| {
      HitAccounted(c, i);
    } else if read.Some? {
      StoreAccounted(c, key, read.value);
    }
  }

  /** What one look does. A file that is kept is answered from the slot, which moves to
      the end. Any other answer is the parse; it is kept if the file had been still for
      two seconds, behind what was kept before, of which as many of the last used stay as
      are within 16 files and four megabytes. */
  lemma LookExact<E>(c: Cache<E>, key: Key, now: int, read: Option<seq<E>>)
    requires Accounted(c)
    ensures var (r, d) := Look(c, key, now, read);
      && (forall i: nat :: i < |c.slots| && c.slots[i].key == key ==>
           r == Some(c.slots[i].entries) && d.slots == c.slots[..i] + c.slots[i + 1..] + [c.slots[i]])
      && ((forall i :: 0 <= i < |c.slots| ==> c.slots[i].key != key) ==>
           && r == read
           && (read.None? || now - key.mtime < 2_000_000_000 ==> d == c)
           && (read.Some? && now - key.mtime >= 2_000_000_000 ==>
                LongestWithin(c.slots + [Slot(key, read.value)], d.slots)))
      && d.bytes == Size(d.slots)
  {
    hide Size, Store, Evicted;
    LookAccounted(c, key, now, read);
    assert Look(c, key, now, read).1.bytes == Size(Look(c, key, now, read).1.slots);
    if read.Some? && Place(c.slots, key) == |c.slots| { StoreExact(c, key, read.value); }
  }

  /** The longest end of the slots that is within the limits. */
  ghost predicate LongestWithin<E>(slots: seq<Slot<E>>, kept: seq<Slot<E>>) {
    exists k: nat :: KeptFrom(slots, kept, k)
  }

  ghost predicate KeptFrom<E>(slots: seq<Slot<E>>, kept: seq<Slot<E>>, k: nat) {
    k <= |slots| && kept == slots[k..] && Within(kept) && forall j :: 0 <= j < k ==> !Within(slots[j..])
  }

  ghost predicate Within<E>(slots: seq<Slot<E>>) {
    |slots| <= 16 && Size(slots) <= 4_194_304
  }

  lemma StoreExact<E>(c: Cache<E>, key: Key, entries: seq<E>)
    requires c.bytes == Size(c.slots) && Place(c.slots, key) == |c.slots|
    ensures LongestWithin(c.slots + [Slot(key, entries)], Store(c, key, entries).slots)
  {
    hide Size, Evicted;
    var slots := c.slots + [Slot(key, entries)];
    SizeAppend(c.slots, [Slot(key, entries)]);
    SizeOne(Slot(key, entries));
    var k := EvictsFewest(Cache(slots, c.bytes + key.size));
    NoneTooMany<E>();
    assert KeptFrom(slots, slots[k..], k);
  }

  lemma NoneTooMany<E>()
    ensures Within<E>([])
  {
  }

  /** A file stored again replaces what was kept of it. */
  lemma StoreReplaces<E>(c: Cache<E>, i: nat, entries: seq<E>)
    requires Distinct(c.slots) && i < |c.slots|
    ensures forall s :: s in Store(c, c.slots[i].key, entries).slots && s.key == c.slots[i].key ==> s.entries == entries
  {
    hide Evicted;
    var key := c.slots[i].key;
    var grown := Without(c.slots, i) + [Slot(key, entries)];
    EvictedEnd(Cache(grown, c.bytes + key.size));
  }

  lemma {:induction false} EvictedEnd<E>(c: Cache<E>)
    ensures forall s :: s in Evicted(c).slots ==> s in c.slots
    decreases |c.slots|
  {
    if Over(c) { EvictedEnd(Cache(c.slots[1..], c.bytes - c.slots[0].key.size)); }
  }

  // --- least recently used ---

  /** One more than the last place a key was used at, 0 if it never was. */
  function LastUse(uses: seq<Key>, key: Key): (n: nat)
    ensures n <= |uses|
  {
    if uses == [] then 0
    else if uses[|uses| - 1] == key then |uses|
    else LastUse(uses[..|uses| - 1], key)
  }

  ghost predicate ByRecency<E>(c: Cache<E>, uses: seq<Key>) {
    forall i, j :: 0 <= i < j < |c.slots| ==> LastUse(uses, c.slots[i].key) < LastUse(uses, c.slots[j].key)
  }

  lemma LastUseAppend(uses: seq<Key>, key: Key, other: Key)
    ensures LastUse(uses + [key], other) == if other == key then |uses| + 1 else LastUse(uses, other)
  {
    assert (uses + [key])[..|uses|] == uses;
  }

  /** Every answer makes its file the most recently used; the slots stay in the
      order of their last use, so what eviction drops was used before what stays. */
  lemma LookKeepsRecency<E>(c: Cache<E>, uses: seq<Key>, key: Key, now: int, read: Option<seq<E>>)
    requires Accounted(c) && ByRecency(c, uses)
    ensures ByRecency(Look(c, key, now, read).1, uses + [key])
  {
    hide Size, Evicted, LastUse;
    var i := Place(c.slots, key);
    if i < |c.slots| {
      HitKeepsRecency(c, uses, i);
    } else if read.Some? && now - key.mtime >= SETTLE {
      StoreKeepsRecency(c, uses, key, read.value);
    } else {
      forall i | 0 <= i < |c.slots|
        ensures LastUse(uses + [key], c.slots[i].key) == LastUse(uses, c.slots[i].key)
      {
        LastUseAppend(uses, key, c.slots[i].key);
      }
    }
  }

  lemma HitKeepsRecency<E>(c: Cache<E>, uses: seq<Key>, i: nat)
    requires Distinct(c.slots) && ByRecency(c, uses) && i < |c.slots|
    ensures ByRecency(Hit(c, i), uses + [c.slots[i].key])
  {
    hide LastUse;
    var key, h := c.slots[i].key, Hit(c, i).slots;
    forall k | 0 <= k < |h|
      ensures k < |h| - 1 ==> h[k].key == c.slots[if k < i then k else k + 1].key
      ensures LastUse(uses + [key], h[k].key) ==
              if k == |h| - 1 then |uses| + 1 else LastUse(uses, h[k].key)
    {
      LastUseAppend(uses, key, h[k].key);
    }
  }

  lemma StoreKeepsRecency<E>(c: Cache<E>, uses: seq<Key>, key: Key, entries: seq<E>)
    requires Accounted(c) && ByRecency(c, uses) && Place(c.slots, key) == |c.slots|
    ensures ByRecency(Store(c, key, entries), uses + [key])
  {
    hide LastUse, Size, Evicted;
    var grown := Cache(c.slots + [Slot(key, entries)], c.bytes + key.size);
    SizeAppend(c.slots, [Slot(key, entries)]);
    SizeOne(Slot(key, entries));
    forall k | 0 <= k < |grown.slots|
      ensures LastUse(uses + [key], grown.slots[k].key) ==
              if k == |c.slots| then |uses| + 1 else LastUse(uses, c.slots[k].key)
    {
      LastUseAppend(uses, key, grown.slots[k].key);
    }
    var n := EvictsFewest(grown);
  }

  // --- the directory beneath it ---

  datatype File<C> = File(content: C, mtime: int)

  /** A stat taken by a poll that began at `now`, and what its path has held since. */
  datatype Ticket<C> = Ticket(key: Key, now: int, seen: seq<C>)

  datatype World<C, E> = World(
    files: map<string, File<C>>,
    clock: int,
    cache: Cache<E>,
    tickets: seq<Ticket<C>>,
    uses: seq<Key>)

  datatype Event<C> =
    | Wait(ns: nat)
    | Write(path: string, content: C, mtime: int)
    | Remove(path: string)
    | Stat(path: string, now: int)
    | Answer(ticket: nat)

  /** How a store is read: sizes, and the parser a path's suffix selects. */
  datatype Reader<!C, +E> = Reader(size: C -> nat, parse: (string, C) -> Option<seq<E>>)

  function Read<C, E>(how: Reader<C, E>, w: World<C, E>, path: string): Option<seq<E>> {
    if path in w.files then how.parse(path, w.files[path].content) else None
  }

  /** What the file system and the poll can do: the clock never goes back, and a
      write is stamped less than the settling time before it happened. */
  predicate Possible<C, E>(how: Reader<C, E>, w: World<C, E>, e: Event<C>) {
    match e
    case Wait(_) => true
    case Write(_, _, mtime) => w.clock - SETTLE < mtime <= w.clock
    case Remove(_) => true
    case Stat(path, now) => path in w.files && now <= w.clock
    case Answer(i) => i < |w.tickets|
  }

  function Seeing<C>(tickets: seq<Ticket<C>>, path: string, content: C): seq<Ticket<C>> {
    seq(|tickets|, i requires 0 <= i < |tickets| =>
      if tickets[i].key.path == path then tickets[i].(seen := tickets[i].seen + [content]) else tickets[i])
  }

  function Next<C, E>(how: Reader<C, E>, w: World<C, E>, e: Event<C>): World<C, E>
    requires Possible(how, w, e)
  {
    match e
    case Wait(ns) => w.(clock := w.clock + ns)
    case Write(path, content, mtime) =>
      w.(files := w.files[path := File(content, mtime)], tickets := Seeing(w.tickets, path, content))
    case Remove(path) => w.(files := w.files - {path})
    case Stat(path, now) =>
      var f := w.files[path];
      w.(tickets := w.tickets + [Ticket(Key(path, how.size(f.content), f.mtime), now, [f.content])])
    case Answer(i) =>
      var t := w.tickets[i];
      w.(cache := Look(w.cache, t.key, t.now, Read(how, w, t.key.path)).1, uses := w.uses + [t.key])
  }

  ghost predicate Has<C, E>(how: Reader<C, E>, w: World<C, E>, key: Key) {
    key.path in w.files && how.size(w.files[key.path].content) == key.size && w.files[key.path].mtime == key.mtime
  }

  ghost predicate ParseOf<C, E>(how: Reader<C, E>, path: string, content: C, entries: seq<E>) {
    how.parse(path, content) == Some(entries)
  }

  /** A slot is settled, and true of the file if the file still has its key. */
  ghost predicate SlotTrue<C, E>(how: Reader<C, E>, w: World<C, E>, s: Slot<E>) {
    && s.key.mtime + SETTLE <= w.clock
    && (Has(how, w, s.key) ==> ParseOf(how, s.key.path, w.files[s.key.path].content, s.entries))
  }

  ghost predicate SeenParse<C, E>(how: Reader<C, E>, t: Ticket<C>, entries: seq<E>) {
    exists k :: 0 <= k < |t.seen| && ParseOf(how, t.key.path, t.seen[k], entries)
  }

  ghost predicate TicketTrue<C, E>(how: Reader<C, E>, w: World<C, E>, t: Ticket<C>) {
    && t.now <= w.clock
    && t.seen != []
    && (t.key.path in w.files ==> w.files[t.key.path].content == t.seen[|t.seen| - 1])
    && forall j :: 0 <= j < |w.cache.slots| && w.cache.slots[j].key == t.key ==>
         SeenParse(how, t, w.cache.slots[j].entries)
  }

  ghost predicate Sound<C, E>(how: Reader<C, E>, w: World<C, E>) {
    && Accounted(w.cache)
    && ByRecency(w.cache, w.uses)
    && (forall j :: 0 <= j < |w.cache.slots| ==> SlotTrue(how, w, w.cache.slots[j]))
    && (forall i :: 0 <= i < |w.tickets| ==> TicketTrue(how, w, w.tickets[i]))
  }

  // --- soundness of every run ---

  /** Where the slots of an answered cache come from. */
  lemma LookSlots<E>(c: Cache<E>, key: Key, now: int, read: Option<seq<E>>)
    requires Accounted(c)
    ensures forall s <- Look(c, key, now, read).1.slots ::
      s in c.slots || (read == Some(s.entries) && s.key == key && now - key.mtime >= SETTLE)
  {
    hide Size, Evicted, Accounted;
    var i := Place(c.slots, key);
    if i >= |c.slots| && read.Some? {
      SizeAppend(c.slots, [Slot(key, read.value)]);
      SizeOne(Slot(key, read.value));
      Balanced(c);
      var k := EvictsFewest(Cache(c.slots + [Slot(key, read.value)], c.bytes + key.size));
    }
  }

  lemma Balanced<E>(c: Cache<E>)
    requires Accounted(c)
    ensures c.bytes == Size(c.slots)
  {
  }

  lemma WriteKeeps<C, E>(how: Reader<C, E>, w: World<C, E>, path: string, content: C, mtime: int)
    requires Sound(how, w) && w.clock - SETTLE < mtime <= w.clock
    ensures Sound(how, Next(how, w, Write(path, content, mtime)))
  {
    hide Accounted, ByRecency, ParseOf;
    var v := Next(how, w, Write(path, content, mtime));
    forall j | 0 <= j < |v.cache.slots|
      ensures SlotTrue(how, v, v.cache.slots[j])
    {
      assert SlotTrue(how, w, w.cache.slots[j]);
    }
    forall i | 0 <= i < |v.tickets|
      ensures TicketTrue(how, v, v.tickets[i])
    {
      var t, u := w.tickets[i], v.tickets[i];
      assert TicketTrue(how, w, t);
      forall j | 0 <= j < |v.cache.slots| && v.cache.slots[j].key == u.key
        ensures SeenParse(how, u, v.cache.slots[j].entries)
      {
        var k :| 0 <= k < |t.seen| && ParseOf(how, t.key.path, t.seen[k], v.cache.slots[j].entries);
        assert u.seen[k] == t.seen[k];
      }
    }
  }

  lemma StatKeeps<C, E>(how: Reader<C, E>, w: World<C, E>, path: string, now: int)
    requires Sound(how, w) && path in w.files && now <= w.clock
    ensures Sound(how, Next(how, w, Stat(path, now)))
  {
    hide Accounted, ByRecency, ParseOf;
    var v := Next(how, w, Stat(path, now));
    forall j | 0 <= j < |v.cache.slots|
      ensures SlotTrue(how, v, v.cache.slots[j])
    {
      assert SlotTrue(how, w, w.cache.slots[j]);
    }
    forall i | 0 <= i < |v.tickets|
      ensures TicketTrue(how, v, v.tickets[i])
    {
      if i < |w.tickets| {
        assert TicketTrue(how, w, w.tickets[i]);
      } else {
        var t := v.tickets[i];
        forall j | 0 <= j < |v.cache.slots| && v.cache.slots[j].key == t.key
          ensures SeenParse(how, t, v.cache.slots[j].entries)
        {
          assert SlotTrue(how, w, w.cache.slots[j]);
          assert ParseOf(how, t.key.path, t.seen[0], v.cache.slots[j].entries);
        }
      }
    }
  }

  lemma AnswerKeeps<C, E>(how: Reader<C, E>, w: World<C, E>, i: nat)
    requires Sound(how, w) && i < |w.tickets|
    ensures Sound(how, Next(how, w, Answer(i)))
  {
    hide Accounted, ByRecency, Look, Read, SeenParse, Possible;
    var t := w.tickets[i];
    var read := Read(how, w, t.key.path);
    var v := w.(cache := Look(w.cache, t.key, t.now, read).1, uses := w.uses + [t.key]);
    LookAccounted(w.cache, t.key, t.now, read);
    LookKeepsRecency(w.cache, w.uses, t.key, t.now, read);
    LookSlots(w.cache, t.key, t.now, read);
    ReadIs(how, w, t.key.path);
    assert TicketTrue(how, w, t);
    forall j | 0 <= j < |v.cache.slots|
      ensures SlotTrue(how, v, v.cache.slots[j])
    {
      assert v.cache.slots[j] in v.cache.slots;
    }
    forall n | 0 <= n < |v.tickets|
      ensures TicketTrue(how, v, v.tickets[n])
    {
      var u := w.tickets[n];
      assert TicketTrue(how, w, u);
      forall j | 0 <= j < |v.cache.slots| && v.cache.slots[j].key == u.key
        ensures SeenParse(how, u, v.cache.slots[j].entries)
      {
        assert v.cache.slots[j] in v.cache.slots;
        if v.cache.slots[j] !in w.cache.slots {
          SeenLast(how, u, v.cache.slots[j].entries);
        }
      }
    }
  }

  lemma SeenLast<C, E>(how: Reader<C, E>, t: Ticket<C>, entries: seq<E>)
    requires t.seen != [] && ParseOf(how, t.key.path, t.seen[|t.seen| - 1], entries)
    ensures SeenParse(how, t, entries)
  {
  }

  lemma ReadIs<C, E>(how: Reader<C, E>, w: World<C, E>, path: string)
    ensures var read := Read(how, w, path);
      read.Some? ==> path in w.files && ParseOf(how, path, w.files[path].content, read.value)
    ensures path in w.files ==> Read(how, w, path) == how.parse(path, w.files[path].content)
    ensures path !in w.files ==> Read(how, w, path) == None
  {
  }

  lemma NextKeeps<C, E>(how: Reader<C, E>, w: World<C, E>, e: Event<C>)
    requires Sound(how, w) && Possible(how, w, e)
    ensures Sound(how, Next(how, w, e))
  {
    match e {
      case Wait(ns) => OthersKeep(how, w, e);
      case Write(path, content, mtime) => WriteKeeps(how, w, path, content, mtime);
      case Remove(path) => OthersKeep(how, w, e);
      case Stat(path, now) => StatKeeps(how, w, path, now);
      case Answer(i) => AnswerKeeps(how, w, i);
    }
  }

  lemma OthersKeep<C, E>(how: Reader<C, E>, w: World<C, E>, e: Event<C>)
    requires Sound(how, w) && (e.Wait? || e.Remove?)
    ensures Sound(how, Next(how, w, e))
  {
    hide Accounted, ByRecency, ParseOf, SeenParse;
    var v := Next(how, w, e);
    forall j | 0 <= j < |v.cache.slots|
      ensures SlotTrue(how, v, v.cache.slots[j])
    {
      assert SlotTrue(how, w, w.cache.slots[j]);
    }
    forall i | 0 <= i < |v.tickets|
      ensures TicketTrue(how, v, v.tickets[i])
    {
      assert TicketTrue(how, w, w.tickets[i]);
    }
  }

  ghost predicate Happens<C, E>(how: Reader<C, E>, w: World<C, E>, events: seq<Event<C>>)
    decreases |events|
  {
    events != [] ==> Possible(how, w, events[0]) && Happens(how, Next(how, w, events[0]), events[1..])
  }

  ghost function After<C, E>(how: Reader<C, E>, w: World<C, E>, events: seq<Event<C>>): World<C, E>
    requires Happens(how, w, events)
    decreases |events|
  {
    if events == [] then w else After(how, Next(how, w, events[0]), events[1..])
  }

  lemma {:induction false} RunKeeps<C, E>(how: Reader<C, E>, w: World<C, E>, events: seq<Event<C>>)
    requires Sound(how, w) && Happens(how, w, events)
    ensures Sound(how, After(how, w, events))
    decreases |events|
  {
    hide Sound, Next, Possible;
    if events != [] {
      NextKeeps(how, w, events[0]);
      RunKeeps(how, Next(how, w, events[0]), events[1..]);
    }
  }

  /** From a cold cache, whatever happened before: answers are fresh, the byte
      count is the sum of the sizes, the limits hold, the order is by last use. */
  lemma EveryRunIsTransparent<C, E>(how: Reader<C, E>, files: map<string, File<C>>, clock: int,
                                    events: seq<Event<C>>, i: nat)
    requires Happens(how, World(files, clock, Cache([], 0), [], []), events)
    requires i < |After(how, World(files, clock, Cache([], 0), [], []), events).tickets|
    ensures var w := After(how, World(files, clock, Cache([], 0), [], []), events);
      var t := w.tickets[i];
      var r := Look(w.cache, t.key, t.now, Read(how, w, t.key.path)).0;
      && Accounted(w.cache) && ByRecency(w.cache, w.uses)
      && (r.Some? ==> SeenParse(how, t, r.value))
      && (r.None? ==> Read(how, w, t.key.path).None?)
      && (|t.seen| == 1 && t.key.path in w.files ==> r == how.parse(t.key.path, w.files[t.key.path].content))
  {
    var cold: World<C, E> := World(files, clock, Cache([], 0), [], []);
    ColdIsSound(how, cold);
    hide Accounted, ByRecency, Look, Read, Happens, After, Next;
    RunKeeps(how, cold, events);
  }

  lemma ColdIsSound<C, E>(how: Reader<C, E>, w: World<C, E>)
    requires w.cache == Cache([], 0) && w.tickets == []
    ensures Sound(how, w)
  {
  }

  // --- one whole poll ---

  /** The wanted entries of the files, in file order and in each file's own order. */
  function Wanted<E>(entries: seq<E>, want: E -> bool): seq<E> {
    if entries == [] then []
    else
      var n := |entries| - 1;
      Wanted(entries[..n], want) + if want(entries[n]) then [entries[n]] else []
  }

  function Fresh<E>(keys: seq<Key>, read: Key -> Option<seq<E>>, want: E -> bool): seq<E> {
    if keys == [] then []
    else
      var n := |keys| - 1;
      Fresh(keys[..n], read, want) +
      match read(keys[n]) case None => [] case Some(entries) => Wanted(entries, want)
  }

  /** The same walk, each file through the cache. */
  function Walk<E>(c: Cache<E>, keys: seq<Key>, now: int, read: Key -> Option<seq<E>>, want: E -> bool)
    : (seq<E>, Cache<E>)
  {
    if keys == [] then ([], c)
    else
      var n := |keys| - 1;
      var (out, d) := Walk(c, keys[..n], now, read, want);
      var (r, d') := Look(d, keys[n], now, read(keys[n]));
      (out + match r case None => [] case Some(entries) => Wanted(entries, want), d')
  }

  ghost predicate TrueOf<C, E>(how: Reader<C, E>, w: World<C, E>, c: Cache<E>) {
    Accounted(c) && forall j :: 0 <= j < |c.slots| ==> SlotTrue(how, w, c.slots[j])
  }

  lemma LookTrue<C, E>(how: Reader<C, E>, w: World<C, E>, c: Cache<E>, key: Key, now: int)
    requires TrueOf(how, w, c) && Has(how, w, key) && now <= w.clock
    ensures var (r, d) := Look(c, key, now, Read(how, w, key.path));
      r == Read(how, w, key.path) && TrueOf(how, w, d)
  {
    hide Accounted, ParseOf;
    var read := Read(how, w, key.path);
    LookAccounted(c, key, now, read);
    LookSlots(c, key, now, read);
    ReadIs(how, w, key.path);
    ParseIs(how, w, key.path);
    var d := Look(c, key, now, read).1;
    forall j | 0 <= j < |d.slots|
      ensures SlotTrue(how, w, d.slots[j])
    {
      assert d.slots[j] in d.slots;
    }
  }

  lemma ParseIs<C, E>(how: Reader<C, E>, w: World<C, E>, path: string)
    ensures path in w.files ==> forall e :: ParseOf(how, path, w.files[path].content, e) ==>
      Read(how, w, path) == Some(e)
  {
  }

  /** Over a still directory a poll through the cache yields what one without it would. */
  lemma {:induction false} WalkIsFresh<C, E>(how: Reader<C, E>, w: World<C, E>, keys: seq<Key>, now: int,
                                             want: E -> bool)
    requires Sound(how, w) && now <= w.clock && forall i :: 0 <= i < |keys| ==> Has(how, w, keys[i])
    ensures var read := (k: Key) => Read(how, w, k.path);
      var (out, c) := Walk(w.cache, keys, now, read, want);
      out == Fresh(keys, read, want) && TrueOf(how, w, c)
    decreases |keys|
  {
    hide Look, Accounted, Read, Wanted, Has, SlotTrue;
    if keys != [] {
      var n := |keys| - 1;
      WalkIsFresh(how, w, keys[..n], now, want);
      var read := (k: Key) => Read(how, w, k.path);
      var (_, c) := Walk(w.cache, keys[..n], now, read, want);
      LookTrue(how, w, c, keys[n], now);
    }
  }

  /** What opening and parsing a file gives. */
  function ReadBy<C, E>(data: Key -> Option<C>, parse: C -> Option<seq<E>>): Key -> Option<seq<E>> {
    (k: Key) => if data(k).None? then None else parse(data(k).value)
  }

  /** The tables, then the logs. */
  function Iterated<E>(c: Cache<E>, tables: seq<Key>, logs: seq<Key>, now: int, readTable: Key -> Option<seq<E>>,
                       readLog: Key -> Option<seq<E>>, want: E -> bool): (seq<E>, Cache<E>)
  {
    var (first, d) := Walk(c, tables, now, readTable, want);
    var (second, d') := Walk(d, logs, now, readLog, want);
    (first + second, d')
  }

  // --- the cache itself ---

  /** Parsed files by last use, within a count and a size. */
  class ParseCache<E> {
    var slots: seq<Slot<E>>
    var bytes: int

    ghost function Model(): Cache<E>
      reads this
    {
      Cache(slots, bytes)
    }

    constructor ()
      ensures Model() == Cache([], 0)
    {
      slots, bytes := [], 0;
    }

    method Clear()
      modifies this
      ensures Model() == Cache([], 0)
    {
      slots, bytes := [], 0;
    }

    method Put(key: Key, entries: seq<E>)
      modifies this
      ensures Model() == Store(old(Model()), key, entries)
    {
      var i := Place(slots, key);
      if i < |slots| {
        slots := Without(slots, i);
      }
      slots := slots + [Slot(key, entries)];
      bytes := bytes + key.size;
      while slots != [] && (|slots| > MAX_FILES || bytes > MAX_BYTES)
        invariant Evicted(Model()) == Store(old(Model()), key, entries)
        decreases |slots|
      {
        var gone := slots[0];
        slots := slots[1..];
        bytes := bytes - gone.key.size;
      }
    }

    /** `data` is what opening the file gives, and is used only on a miss. */
    method ParsedFile<C>(key: Key, now: int, data: Option<C>, parse: C -> Option<seq<E>>)
      returns (r: Option<seq<E>>)
      modifies this
      ensures var read := if data.None? then None else parse(data.value);
        (r, Model()) == Look(old(Model()), key, now, read)
    {
      hide Store;
      var i := Place(slots, key);
      if i < |slots| {
        var hit := slots[i];
        slots := Without(slots, i) + [hit];
        return Some(hit.entries);
      }
      if data.None? { return None; }
      var read := parse(data.value);
      if read.None? { return None; }
      if now - key.mtime >= SETTLE {
        Put(key, read.value);
      }
      return read;
    }

    /** The files of one suffix, stat'ed; `data` is what opening each gives at its turn. */
    method Entries<C>(keys: seq<Key>, now: int, data: Key -> Option<C>, parse: C -> Option<seq<E>>,
                      want: E -> bool) returns (out: seq<E>)
      modifies this
      ensures (out, Model()) == Walk(old(Model()), keys, now, ReadBy(data, parse), want)
    {
      hide Walk, Look, Wanted;
      out := [];
      ghost var read := ReadBy(data, parse);
      ghost var start := Model();
      WalkNone(start, now, read, want);
      var i := 0;
      while i < |keys|
        invariant 0 <= i <= |keys|
        invariant (out, Model()) == Walk(start, keys[..i], now, read, want)
      {
        WalkStep(start, keys[..i], keys[i], now, read, want);
        assert keys[..i + 1] == keys[..i] + [keys[i]];
        ghost var so := out;
        var entries := ParsedFile(keys[i], now, data(keys[i]), parse);
        if entries.Some? {
          var j := 0;
          WantedNone(want);
          assert so + [] == so;
          while j < |entries.value|
            invariant 0 <= j <= |entries.value|
            invariant Model() == Walk(start, keys[..i + 1], now, read, want).1
            invariant out == so + Wanted(entries.value[..j], want)
          {
            WantedStep(entries.value[..j], entries.value[j], want);
            assert entries.value[..j + 1] == entries.value[..j] + [entries.value[j]];
            if want(entries.value[j]) {
              out := out + [entries.value[j]];
            }
            j := j + 1;
          }
          assert entries.value[..j] == entries.value;
        } else {
          assert so + [] == so;
        }
        i := i + 1;
      }
      assert keys[..i] == keys;
    }

    /** Every table file in the order of the numbers, then every log file. */
    method IterEntries<C>(tables: Option<seq<string>>, logs: Option<seq<string>>, stat: string -> Option<Key>,
                          now: int, data: Key -> Option<C>, table: C -> Option<seq<E>>, log: C -> Option<seq<E>>,
                          want: E -> bool) returns (out: seq<E>)
      modifies this
      ensures (out, Model()) == Iterated(old(Model()), Listing.Listed(tables, ".ldb", stat),
                                         Listing.Listed(logs, ".log", stat), now, ReadBy(data, table), ReadBy(data, log), want)
    {
      hide Walk;
      var keys := Listing.StatFiles(tables, ".ldb", stat);
      var first := Entries(keys, now, data, table, want);
      keys := Listing.StatFiles(logs, ".log", stat);
      var second := Entries(keys, now, data, log, want);
      out := first + second;
    }
  }

  lemma WantedNone<E>(want: E -> bool)
    ensures Wanted([], want) == []
  {
  }

  lemma WantedStep<E>(entries: seq<E>, e: E, want: E -> bool)
    ensures Wanted(entries + [e], want) == if want(e) then Wanted(entries, want) + [e] else Wanted(entries, want)
  {
    assert (entries + [e])[..|entries|] == entries;
  }

  lemma WalkNone<E>(c: Cache<E>, now: int, read: Key -> Option<seq<E>>, want: E -> bool)
    ensures Walk(c, [], now, read, want) == ([], c)
  {
  }

  lemma WalkStep<E>(c: Cache<E>, keys: seq<Key>, key: Key, now: int, read: Key -> Option<seq<E>>, want: E -> bool)
    ensures var (out, d) := Walk(c, keys, now, read, want);
      var (r, d') := Look(d, key, now, read(key));
      Walk(c, keys + [key], now, read, want) ==
      (out + match r case None => [] case Some(entries) => Wanted(entries, want), d')
  {
    hide Look, Wanted;
    assert (keys + [key])[..|keys|] == keys;
  }
}
