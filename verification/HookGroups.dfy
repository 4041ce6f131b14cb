/** One event's list of matcher groups, shared with other tools: adding our hook to
    it, repointing it, and taking it out again. */
module HookGroups {
  import opened Wrappers

  /** A hook with a command and whatever else it says, or an entry without one. */
  datatype Hook = Cmd(command: string, rest: map<string, string>) | Opaque(json: string)

  /** A group; `hooks` is None when it is missing or not a list. */
  datatype Group = Group(hooks: Option<seq<Hook>>, matcher: Option<string>, rest: map<string, string>) | Odd(json: string)

  predicate Mine(h: Hook, mine: set<string>) {
    h.Cmd? && h.command in mine
  }

  function Inner(g: Group): seq<Hook> {
    if g.Group? && g.hooks.Some? then g.hooks.value else []
  }

  /** The place of the first hook of ours, or the end. */
  function FirstMine(hooks: seq<Hook>, mine: set<string>): (i: nat)
    ensures i <= |hooks|
  {
    if hooks == [] || Mine(hooks[0], mine) then 0 else 1 + FirstMine(hooks[1..], mine)
  }

  lemma {:induction false} FirstMineIs(hooks: seq<Hook>, mine: set<string>)
    ensures var i := FirstMine(hooks, mine);
      (i < |hooks| ==> Mine(hooks[i], mine)) && forall k :: 0 <= k < i ==> !Mine(hooks[k], mine)
  {
    if hooks != [] && !Mine(hooks[0], mine) {
      FirstMineIs(hooks[1..], mine);
    }
  }

  predicate HasMine(g: Group, mine: set<string>) {
    FirstMine(Inner(g), mine) < |Inner(g)|
  }

  function FirstGroup(groups: seq<Group>, mine: set<string>): (i: nat)
    ensures i <= |groups|
    ensures i < |groups| ==> HasMine(groups[i], mine)
  {
    if groups == [] || HasMine(groups[0], mine) then 0 else 1 + FirstGroup(groups[1..], mine)
  }

  lemma {:induction false} FirstGroupIs(groups: seq<Group>, mine: set<string>, i: nat)
    requires i <= |groups| && (forall k :: 0 <= k < i ==> !HasMine(groups[k], mine))
    requires i < |groups| ==> HasMine(groups[i], mine)
    ensures FirstGroup(groups, mine) == i
  {
    if i > 0 {
      assert !HasMine(groups[0], mine);
      FirstGroupIs(groups[1..], mine, i - 1);
    }
  }

  lemma {:induction false} BeforeFirst(groups: seq<Group>, mine: set<string>)
    ensures forall k :: 0 <= k < FirstGroup(groups, mine) ==> !HasMine(groups[k], mine)
  {
    if groups != [] && !HasMine(groups[0], mine) {
      BeforeFirst(groups[1..], mine);
      forall k | 0 <= k < FirstGroup(groups, mine)
        ensures !HasMine(groups[k], mine)
      {
        if k > 0 { assert groups[k] == groups[1..][k - 1]; }
      }
    }
  }

  // --- installing ---

  function NewGroup(command: string, matcher: Option<string>): Group {
    Group(Some([Cmd(command, map["type" := "command"])]), matcher, map[])
  }

  /** Ours names the new path; its matcher is ours too only where it stands alone. */
  function Repointed(g: Group, command: string, matcher: Option<string>, mine: set<string>): Group
    requires HasMine(g, mine)
  {
    var hooks := g.hooks.value;
    var j := FirstMine(hooks, mine);
    FirstMineIs(hooks, mine);
    g.(hooks := Some(hooks[j := hooks[j].(command := command)]),
       matcher := if |hooks| == 1 then matcher else g.matcher)
  }

  function Merge(groups: seq<Group>, command: string, matcher: Option<string>, mine: set<string>): seq<Group> {
    var i := FirstGroup(groups, mine);
    if i == |groups| then groups + [NewGroup(command, matcher)]
    else groups[i := Repointed(groups[i], command, matcher, mine)]
  }

  // --- uninstalling ---

  function Kept(hooks: seq<Hook>, mine: set<string>): seq<Hook> {
    if hooks == [] then []
    else
      var n := |hooks| - 1;
      Kept(hooks[..n], mine) + if Mine(hooks[n], mine) then [] else [hooks[n]]
  }

  /** A group without ours; gone when nothing is left in it. */
  function Stripped(g: Group, mine: set<string>): seq<Group> {
    if g.Odd? || g.hooks.None? then [g]
    else
      var kept := Kept(g.hooks.value, mine);
      if kept == [] then [] else [g.(hooks := Some(kept))]
  }

  function Strip(groups: seq<Group>, mine: set<string>): seq<Group> {
    if groups == [] then []
    else
      var n := |groups| - 1;
      Strip(groups[..n], mine) + Stripped(groups[n], mine)
  }

  // --- what belongs to others ---

  /** Somebody else's hook with the group it fires under, or an entry we cannot read. */
  datatype Piece = Whole(g: Group) | Held(h: Hook, matcher: Option<string>, rest: map<string, string>)

  function Under(hooks: seq<Hook>, g: Group): seq<Piece>
    requires g.Group?
  {
    if hooks == [] then []
    else Under(hooks[..|hooks| - 1], g) + [Held(hooks[|hooks| - 1], g.matcher, g.rest)]
  }

  function PiecesOf(g: Group, mine: set<string>): seq<Piece> {
    if g.Odd? || g.hooks.None? then [Whole(g)] else Under(Kept(g.hooks.value, mine), g)
  }

  /** Everything in the list that is not ours, in order. */
  function Pieces(groups: seq<Group>, mine: set<string>): seq<Piece> {
    if groups == [] then []
    else Pieces(groups[..|groups| - 1], mine) + PiecesOf(groups[|groups| - 1], mine)
  }

  function CountIn(hooks: seq<Hook>, mine: set<string>): nat {
    if hooks == [] then 0
    else CountIn(hooks[..|hooks| - 1], mine) + if Mine(hooks[|hooks| - 1], mine) then 1 else 0
  }

  function Count(groups: seq<Group>, mine: set<string>): nat {
    if groups == [] then 0 else Count(groups[..|groups| - 1], mine) + CountIn(Inner(groups[|groups| - 1]), mine)
  }

  // --- single hooks ---

  lemma {:induction false} KeptAppend(a: seq<Hook>, b: seq<Hook>, mine: set<string>)
    ensures Kept(a + b, mine) == Kept(a, mine) + Kept(b, mine)
    ensures CountIn(a + b, mine) == CountIn(a, mine) + CountIn(b, mine)
    decreases |b|
  {
    if b == [] {
      assert a + b == a;
    } else {
      var n := |b| - 1;
      KeptAppend(a, b[..n], mine);
      assert (a + b)[..|a + b| - 1] == a + b[..n];
    }
  }

  lemma KeptOne(h: Hook, mine: set<string>)
    ensures Kept([h], mine) == if Mine(h, mine) then [] else [h]
    ensures CountIn([h], mine) == if Mine(h, mine) then 1 else 0
  {
    assert [h][..0] == [];
  }

  /** Giving ours another of our commands takes nothing from the others. */
  lemma KeptReplace(hooks: seq<Hook>, j: nat, command: string, mine: set<string>)
    requires j < |hooks| && Mine(hooks[j], mine) && command in mine
    ensures var more := hooks[j := hooks[j].(command := command)];
      Kept(more, mine) == Kept(hooks, mine) && CountIn(more, mine) == CountIn(hooks, mine)
  {
    hide Kept, CountIn;
    var h, b := hooks[j].(command := command), hooks[j + 1..];
    assert hooks == (hooks[..j] + [hooks[j]]) + b;
    assert hooks[j := h] == (hooks[..j] + [h]) + b;
    KeptAppend(hooks[..j] + [hooks[j]], b, mine);
    KeptAppend(hooks[..j] + [h], b, mine);
    KeptAppend(hooks[..j], [hooks[j]], mine);
    KeptAppend(hooks[..j], [h], mine);
    KeptOne(hooks[j], mine);
    KeptOne(h, mine);
  }

  lemma {:induction false} KeptOfKept(hooks: seq<Hook>, mine: set<string>)
    ensures Kept(Kept(hooks, mine), mine) == Kept(hooks, mine)
    ensures CountIn(Kept(hooks, mine), mine) == 0
  {
    if hooks != [] {
      var n := |hooks| - 1;
      KeptOfKept(hooks[..n], mine);
      var last := if Mine(hooks[n], mine) then [] else [hooks[n]];
      KeptAppend(Kept(hooks[..n], mine), last, mine);
      KeptOne(hooks[n], mine);
    }
  }

  lemma {:induction false} KeptAll(hooks: seq<Hook>, mine: set<string>)
    ensures |Kept(hooks, mine)| + CountIn(hooks, mine) == |hooks|
    ensures CountIn(hooks, mine) == 0 <==> Kept(hooks, mine) == hooks
    ensures CountIn(hooks, mine) > 0 <==> FirstMine(hooks, mine) < |hooks|
  {
    CountFound(hooks, mine);
    if hooks != [] {
      var n := |hooks| - 1;
      KeptAll(hooks[..n], mine);
      assert hooks == hooks[..n] + [hooks[n]];
    }
  }

  lemma {:induction false} CountFound(hooks: seq<Hook>, mine: set<string>)
    ensures CountIn(hooks, mine) > 0 <==> FirstMine(hooks, mine) < |hooks|
  {
    if hooks != [] {
      CountFound(hooks[1..], mine);
      assert hooks == [hooks[0]] + hooks[1..];
      KeptAppend([hooks[0]], hooks[1..], mine);
      KeptOne(hooks[0], mine);
    }
  }

  // --- whole lists ---

  lemma {:induction false} PiecesJoin(a: seq<Group>, b: seq<Group>, mine: set<string>)
    ensures Pieces(a + b, mine) == Pieces(a, mine) + Pieces(b, mine)
    decreases |b|
  {
    hide PiecesOf;
    if b == [] {
      assert a + b == a;
    } else {
      var n := |b| - 1;
      PiecesJoin(a, b[..n], mine);
      assert (a + b)[..|a + b| - 1] == a + b[..n];
    }
  }

  lemma {:induction false} StripJoin(a: seq<Group>, b: seq<Group>, mine: set<string>)
    ensures Strip(a + b, mine) == Strip(a, mine) + Strip(b, mine)
    decreases |b|
  {
    hide Stripped;
    if b == [] {
      assert a + b == a;
    } else {
      var n := |b| - 1;
      StripJoin(a, b[..n], mine);
      assert (a + b)[..|a + b| - 1] == a + b[..n];
    }
  }

  lemma {:induction false} CountJoin(a: seq<Group>, b: seq<Group>, mine: set<string>)
    ensures Count(a + b, mine) == Count(a, mine) + Count(b, mine)
    decreases |b|
  {
    hide CountIn, Inner;
    if b == [] {
      assert a + b == a;
    } else {
      var n := |b| - 1;
      CountJoin(a, b[..n], mine);
      assert (a + b)[..|a + b| - 1] == a + b[..n];
    }
  }

  lemma PiecesAppend(a: seq<Group>, b: seq<Group>, mine: set<string>)
    ensures Pieces(a + b, mine) == Pieces(a, mine) + Pieces(b, mine)
    ensures Strip(a + b, mine) == Strip(a, mine) + Strip(b, mine)
    ensures Count(a + b, mine) == Count(a, mine) + Count(b, mine)
  {
    hide *;
    PiecesJoin(a, b, mine);
    StripJoin(a, b, mine);
    CountJoin(a, b, mine);
  }

  lemma PiecesOne(g: Group, mine: set<string>)
    ensures Pieces([g], mine) == PiecesOf(g, mine)
    ensures Strip([g], mine) == Stripped(g, mine)
    ensures Count([g], mine) == CountIn(Inner(g), mine)
  {
    hide PiecesOf, Stripped, CountIn;
    assert [g][..0] == [];
  }

  lemma PiecesAt(groups: seq<Group>, i: nat, g: Group, mine: set<string>)
    requires i < |groups|
    ensures groups[i := g] == (groups[..i] + [g]) + groups[i + 1..]
    ensures Pieces(groups[i := g], mine) == Pieces(groups[..i], mine) + PiecesOf(g, mine) + Pieces(groups[i + 1..], mine)
    ensures Count(groups[i := g], mine) == Count(groups[..i], mine) + CountIn(Inner(g), mine) + Count(groups[i + 1..], mine)
  {
    hide Pieces, PiecesOf, Count, CountIn;
    assert groups[i := g] == (groups[..i] + [g]) + groups[i + 1..];
    PiecesAppend(groups[..i] + [g], groups[i + 1..], mine);
    PiecesAppend(groups[..i], [g], mine);
    PiecesOne(g, mine);
  }

  lemma RepointedPieces(g: Group, command: string, matcher: Option<string>, mine: set<string>)
    requires HasMine(g, mine) && command in mine
    ensures PiecesOf(Repointed(g, command, matcher, mine), mine) == PiecesOf(g, mine)
    ensures CountIn(Inner(Repointed(g, command, matcher, mine)), mine) == CountIn(Inner(g), mine) > 0
  {
    var hooks := g.hooks.value;
    var j := FirstMine(hooks, mine);
    FirstMineIs(hooks, mine);
    KeptReplace(hooks, j, command, mine);
    KeptAll(hooks, mine);
    hide Kept, CountIn, FirstMine;
    var r := Repointed(g, command, matcher, mine);
    if |hooks| == 1 {
      assert Kept(hooks, mine) == [];
    } else {
      UnderSame(Kept(hooks, mine), g, r);
    }
  }

  lemma {:induction false} UnderSame(hooks: seq<Hook>, g: Group, r: Group)
    requires g.Group? && r.Group? && g.matcher == r.matcher && g.rest == r.rest
    ensures Under(hooks, g) == Under(hooks, r)
  {
    if hooks != [] {
      UnderSame(hooks[..|hooks| - 1], g, r);
    }
  }

  /** Installing keeps every hook of others, in order and under its own matcher, and
      never leaves a second one of ours where there was one. */
  lemma MergeRespects(groups: seq<Group>, command: string, matcher: Option<string>, mine: set<string>)
    requires command in mine
    ensures var merged := Merge(groups, command, matcher, mine);
      && Pieces(merged, mine) == Pieces(groups, mine)
      && Count(merged, mine) == if Count(groups, mine) == 0 then 1 else Count(groups, mine)
  {
    hide Pieces, PiecesOf, Count, CountIn, Repointed, HasMine;
    var i := FirstGroup(groups, mine);
    if i == |groups| {
      var g := NewGroup(command, matcher);
      PiecesAppend(groups, [g], mine);
      PiecesOne(g, mine);
      NewGroupIsMine(command, matcher, mine);
      NoneCounted(groups, mine);
    } else {
      PiecesAt(groups, i, groups[i], mine);
      PiecesAt(groups, i, Repointed(groups[i], command, matcher, mine), mine);
      assert groups[i := groups[i]] == groups;
      RepointedPieces(groups[i], command, matcher, mine);
    }
  }

  /** What merging writes. Where none was ours a group of one command hook is added
      behind the others; else the first hook of ours names the new command and nothing
      else about it changes, and its group takes the matcher exactly when it stands
      there alone. */
  lemma MergeWrites(groups: seq<Group>, command: string, matcher: Option<string>, mine: set<string>)
    ensures var r := Merge(groups, command, matcher, mine);
      && ((forall g, k :: g in groups && 0 <= k < |Inner(g)| ==> !Mine(Inner(g)[k], mine)) ==>
           r == groups + [Group(Some([Cmd(command, map["type" := "command"])]), matcher, map[])])
      && forall i, j :: FirstOurs(groups, mine, i, j) ==>
           var was, hooks := groups[i], Inner(groups[i]);
           r == groups[i := Group(Some(hooks[j := Cmd(command, hooks[j].rest)]),
                                  if |hooks| == 1 then matcher else was.matcher, was.rest)]
  {
    hide Mine;
    if forall g, k :: g in groups && 0 <= k < |Inner(g)| ==> !Mine(Inner(g)[k], mine) {
      forall i | 0 <= i < |groups|
        ensures !HasMine(groups[i], mine)
      {
        FirstMineIs(Inner(groups[i]), mine);
        assert groups[i] in groups;
      }
      FirstGroupIs(groups, mine, |groups|);
    }
    forall i, j | FirstOurs(groups, mine, i, j)
      ensures FirstGroup(groups, mine) == i && FirstMine(Inner(groups[i]), mine) == j
    {
      FirstMineThere(Inner(groups[i]), mine, j);
      forall k | 0 <= k < i
        ensures !HasMine(groups[k], mine)
      {
        FirstMineIs(Inner(groups[k]), mine);
      }
      FirstGroupIs(groups, mine, i);
    }
    assert forall h :: Mine(h, mine) ==> h.Cmd? by { MineIsCommand(mine); }
  }

  lemma MineIsCommand(mine: set<string>)
    ensures forall h :: Mine(h, mine) ==> h.Cmd?
  {
  }

  /** The hook at `j` of the group at `i` is ours, and none before it is. */
  ghost predicate FirstOurs(groups: seq<Group>, mine: set<string>, i: int, j: int) {
    && 0 <= i < |groups| && 0 <= j < |Inner(groups[i])| && Inner(groups[i])[j].Cmd? && Mine(Inner(groups[i])[j], mine)
    && (forall k :: 0 <= k < j ==> !Mine(Inner(groups[i])[k], mine))
    && (forall m, k :: 0 <= m < i && 0 <= k < |Inner(groups[m])| ==> !Mine(Inner(groups[m])[k], mine))
  }

  lemma NewGroupIsMine(command: string, matcher: Option<string>, mine: set<string>)
    requires command in mine
    ensures PiecesOf(NewGroup(command, matcher), mine) == []
    ensures Stripped(NewGroup(command, matcher), mine) == []
    ensures CountIn(Inner(NewGroup(command, matcher)), mine) == 1
    ensures HasMine(NewGroup(command, matcher), mine)
  {
    KeptOne(Cmd(command, map["type" := "command"]), mine);
  }

  lemma {:induction false} NoneCounted(groups: seq<Group>, mine: set<string>)
    ensures Count(groups, mine) == 0 <==> FirstGroup(groups, mine) == |groups|
  {
    hide HasMine, CountIn;
    if groups != [] {
      NoneCounted(groups[1..], mine);
      assert groups == [groups[0]] + groups[1..];
      PiecesAppend([groups[0]], groups[1..], mine);
      PiecesOne(groups[0], mine);
      FoundIn(groups[0], mine);
    }
  }

  lemma FoundIn(g: Group, mine: set<string>)
    ensures HasMine(g, mine) <==> CountIn(Inner(g), mine) > 0
  {
    KeptAll(Inner(g), mine);
  }

  /** Uninstalling keeps every hook of others and leaves none of ours. */
  lemma {:induction false} StripRespects(groups: seq<Group>, mine: set<string>)
    ensures Pieces(Strip(groups, mine), mine) == Pieces(groups, mine)
    ensures Count(Strip(groups, mine), mine) == 0
  {
    hide PiecesOf, Stripped, CountIn;
    if groups != [] {
      var n := |groups| - 1;
      StripRespects(groups[..n], mine);
      PiecesAppend(Strip(groups[..n], mine), Stripped(groups[n], mine), mine);
      StrippedRespects(groups[n], mine);
    }
  }

  lemma StrippedRespects(g: Group, mine: set<string>)
    ensures Pieces(Stripped(g, mine), mine) == PiecesOf(g, mine)
    ensures Count(Stripped(g, mine), mine) == 0
  {
    hide Kept, CountIn;
    if g.Odd? || g.hooks.None? {
      PiecesOne(g, mine);
      KeptAll([], mine);
    } else {
      KeptOfKept(g.hooks.value, mine);
      var kept := Kept(g.hooks.value, mine);
      if kept != [] {
        var r := g.(hooks := Some(kept));
        PiecesOne(r, mine);
        UnderSame(kept, g, r);
      }
    }
  }

  /** Nothing of ours, and no group an uninstall would tidy away. */
  predicate Tidy(groups: seq<Group>, mine: set<string>) {
    forall i :: 0 <= i < |groups| ==> !HasMine(groups[i], mine) && !(groups[i].Group? && groups[i].hooks == Some([]))
  }

  lemma StrippedSame(g: Group, mine: set<string>)
    ensures Stripped(g, mine) == [g] <==> !HasMine(g, mine) && !(g.Group? && g.hooks == Some([]))
  {
    hide Kept;
    KeptAll(Inner(g), mine);
  }

  lemma {:induction false} StripShorter(groups: seq<Group>, mine: set<string>)
    ensures |Strip(groups, mine)| <= |groups|
  {
    hide Stripped;
    if groups != [] {
      StripShorter(groups[..|groups| - 1], mine);
      StrippedAtMostOne(groups[|groups| - 1], mine);
    }
  }

  lemma StrippedAtMostOne(g: Group, mine: set<string>)
    ensures |Stripped(g, mine)| <= 1
  {
  }

  /** Uninstalling changes nothing exactly when there is nothing of ours and no group
      with an empty hook list. */
  lemma {:induction false} StripIsIdentityIff(groups: seq<Group>, mine: set<string>)
    ensures Strip(groups, mine) == groups <==> Tidy(groups, mine)
  {
    hide Stripped, HasMine;
    if groups != [] {
      var n := |groups| - 1;
      StripIsIdentityIff(groups[..n], mine);
      StrippedSame(groups[n], mine);
      StrippedAtMostOne(groups[n], mine);
      StripShorter(groups[..n], mine);
      assert groups == groups[..n] + [groups[n]];
      var s, l := Strip(groups[..n], mine), Stripped(groups[n], mine);
      if s + l == groups {
        assert |s| == n && |l| == 1;
        assert s == (s + l)[..n] == groups[..n];
        assert l[0] == (s + l)[n];
      }
      assert Tidy(groups, mine) ==> Tidy(groups[..n], mine);
      assert forall i :: 0 <= i < n ==> groups[..n][i] == groups[i];
    }
  }

  /** Install then uninstall, where nothing was ours, gives back the list exactly when
      it had no group with an empty hook list. */
  lemma MergeThenStrip(groups: seq<Group>, command: string, matcher: Option<string>, mine: set<string>, later: set<string>)
    requires command in mine && command in later && Count(groups, mine) == 0 && Count(groups, later) == 0
    ensures Strip(Merge(groups, command, matcher, mine), later) == Strip(groups, later)
    ensures Strip(groups, later) == groups <==>
      forall i :: 0 <= i < |groups| ==> !(groups[i].Group? && groups[i].hooks == Some([]))
  {
    hide Strip, Stripped, Count, HasMine, CountIn;
    var g := NewGroup(command, matcher);
    NoneCounted(groups, mine);
    NoneCounted(groups, later);
    BeforeFirst(groups, later);
    PiecesAppend(groups, [g], later);
    PiecesOne(g, later);
    NewGroupIsMine(command, matcher, later);
    StripIsIdentityIff(groups, later);
    assert Strip(groups, later) + [] == Strip(groups, later);
  }

  /** A second install, by then recognising our command by what it wrote, changes
      nothing. */
  lemma MergeTwice(groups: seq<Group>, command: string, matcher: Option<string>, mine: set<string>, later: set<string>)
    requires command in mine && command in later && later <= mine
    ensures var merged := Merge(groups, command, matcher, mine);
      Merge(merged, command, matcher, later) == merged
  {
    hide HasMine, Repointed;
    var i := FirstGroup(groups, mine);
    var merged := Merge(groups, command, matcher, mine);
    BeforeFirst(groups, mine);
    forall k | 0 <= k < i
      ensures !HasMine(merged[k], later)
    {
      assert merged[k] == groups[k];
      FewerMine(groups[k], mine, later);
    }
    if i == |groups| {
      NewGroupIsMine(command, matcher, later);
      RepointedNew(command, matcher, later);
    } else {
      RepointTwice(groups[i], command, matcher, mine, later);
    }
    FirstGroupIs(merged, later, i);
  }

  lemma FewerMine(g: Group, mine: set<string>, later: set<string>)
    requires later <= mine && !HasMine(g, mine)
    ensures !HasMine(g, later)
  {
    FirstMineIs(Inner(g), mine);
    FirstMineIs(Inner(g), later);
  }

  lemma RepointedNew(command: string, matcher: Option<string>, mine: set<string>)
    requires command in mine
    ensures HasMine(NewGroup(command, matcher), mine)
    ensures Repointed(NewGroup(command, matcher), command, matcher, mine) == NewGroup(command, matcher)
  {
    RepointedMoved(command, command, matcher, mine);
  }

  lemma {:induction false} FirstMineThere(hooks: seq<Hook>, mine: set<string>, j: nat)
    requires j < |hooks| && Mine(hooks[j], mine) && forall k :: 0 <= k < j ==> !Mine(hooks[k], mine)
    ensures FirstMine(hooks, mine) == j
  {
    if j > 0 {
      FirstMineThere(hooks[1..], mine, j - 1);
    }
  }

  lemma RepointTwice(g: Group, command: string, matcher: Option<string>, mine: set<string>, later: set<string>)
    requires HasMine(g, mine) && command in later && later <= mine
    ensures var r := Repointed(g, command, matcher, mine);
      HasMine(r, later) && Repointed(r, command, matcher, later) == r
  {
    var hooks := g.hooks.value;
    var j := FirstMine(hooks, mine);
    FirstMineIs(hooks, mine);
    var r := Repointed(g, command, matcher, mine);
    FirstMineThere(r.hooks.value, later, j);
    var again := Repointed(r, command, matcher, later);
    assert again.hooks.value == r.hooks.value;
  }

  /** Where nothing was ours, installing at one path and then at another leaves what
      installing at the other alone would. */
  lemma MergeMoved(groups: seq<Group>, one: string, two: string, matcher: Option<string>,
                   mine: set<string>, later: set<string>)
    requires one in mine && one in later && two in later && Count(groups, mine) == 0 && Count(groups, later) == 0
    ensures Merge(Merge(groups, one, matcher, mine), two, matcher, later) == Merge(groups, two, matcher, later)
  {
    hide HasMine, Repointed, Count;
    NoneCounted(groups, mine);
    NoneCounted(groups, later);
    BeforeFirst(groups, later);
    var merged := Merge(groups, one, matcher, mine);
    NewGroupIsMine(one, matcher, later);
    FirstGroupIs(merged, later, |groups|);
    RepointedMoved(one, two, matcher, later);
  }

  lemma RepointedMoved(one: string, two: string, matcher: Option<string>, mine: set<string>)
    requires one in mine
    ensures HasMine(NewGroup(one, matcher), mine)
    ensures Repointed(NewGroup(one, matcher), two, matcher, mine) == NewGroup(two, matcher)
  {
    var g := NewGroup(one, matcher);
    assert Mine(g.hooks.value[0], mine) && FirstMine(g.hooks.value, mine) == 0;
    assert g.hooks.value[0 := Cmd(two, map["type" := "command"])] == [Cmd(two, map["type" := "command"])];
  }
}
